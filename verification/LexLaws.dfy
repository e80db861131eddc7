/** What the lexer reads, kind by kind of symbol: numbers by their value, literals by their text, and
    where one symbol ends and the next begins. */
module LexLaws {
  import opened Bytes
  import opened Options
  import opened Radix
  import opened LexSpec

  // ---------------------------------------------------------------- numbers

  function DigitValues(s: bytes): seq<nat> {
    seq(|s|, i requires 0 <= i < |s| => DigitValue(s[i]))
  }

  ghost predicate InBase(base: nat, s: bytes) {
    forall i :: 0 <= i < |s| ==> DigitValue(s[i]) < base
  }

  /** The digits read as one numeral, if they are digits of the base and the value fits in 64 bits. */
  ghost function Numeral(base: nat, s: bytes): Option<uint64> {
    if InBase(base, s) && FromDigits(base, DigitValues(s)) < TWO_64 then Some(FromDigits(base, DigitValues(s)))
    else None
  }

  lemma ValuesWith(s: bytes, c: byte)
    ensures DigitValues(s + [c]) == DigitValues(s) + [DigitValue(c)]
    ensures DigitValues(s + [c])[..|s|] == DigitValues(s)
  {
  }

  lemma InBaseWith(base: nat, s: bytes, c: byte)
    ensures InBase(base, s + [c]) <==> InBase(base, s) && DigitValue(c) < base
  {
    if InBase(base, s + [c]) {
      assert forall i :: 0 <= i < |s| ==> (s + [c])[i] == s[i];
      assert (s + [c])[|s|] == c;
    }
  }

  lemma Grows(base: nat, m: nat, d: nat)
    requires base > 0
    ensures m <= m * base + d
  {
  }

  lemma {:induction false} AccumulateIsNumeral(base: nat, s: bytes)
    requires base > 0
    ensures Accumulate(base, s, 0) == Numeral(base, s)
  {
    if s != [] {
      var init, c := s[..|s| - 1], s[|s| - 1];
      assert s == init + [c];
      AccumulateIsNumeral(base, init);
      AccumulateAppend(base, init, c, 0);
      ValuesWith(init, c);
      InBaseWith(base, init, c);
      Grows(base, FromDigits(base, DigitValues(init)), DigitValue(c));
    }
  }

  /** The value of a word of digits: octal after a leading zero, else decimal. */
  ghost function NumberOf(word: bytes): Option<uint64>
    requires word != []
  {
    if word[0] == 48 then Numeral(8, word[1..]) else Numeral(10, word)
  }

  /** A number is taken with all digits and letters a to f behind its first digit; it is an error exactly
      if some of them is no digit of its base, or the value needs more than 64 bits. */
  lemma NumberIff(word: bytes, rest: bytes)
    requires word != [] && 48 <= word[0] <= 57 && (forall i :: 0 <= i < |word| ==> IsXdigit(word[i]))
    requires rest == [] || !IsXdigit(rest[0])
    requires word[0] == 48 ==> |word| > 1 && 48 <= word[1] <= 57
    ensures NextSymbol(word + rest)
         == (match NumberOf(word) case None => Error case Some(v) => Token(IntConstant(v)), rest)
  {
    var s, n := word + rest, |word| - 1;
    HeadAndRest(word, rest);
    RunIs(IsXdigit, s[1..], n);
    assert s[0] == word[0] && (|word| > 1 ==> s[1] == word[1]);
    assert DigitsAfter(s) == n;
    AccumulateIsNumeral(8, word[1..]);
    AccumulateIsNumeral(10, word);
  }

  /** A zero with no digit behind it stands alone, whatever letter follows. */
  lemma LoneZero(rest: bytes)
    requires rest == [] || !(48 <= rest[0] <= 57)
    ensures NextSymbol([48] + rest) == (Token(IntConstant(0)), rest)
  {
    var s := [48] + rest;
    assert s[1..] == rest && s[..1] == [48];
    if rest != [] && (rest[0] == 120 || rest[0] == 88) {
      RunIs(IsXdigit, rest, 0);
    }
    assert DigitsAfter(s) == 0;
    assert [48][1..] == [];
  }

  /** For instance, 017 is fifteen, 08 an error, and 12g a number and a name. */
  lemma SomeNumbers()
    ensures NextSymbol([48, 49, 55]) == (Token(IntConstant(15)), [])
    ensures NextSymbol([48, 56]) == (Error, [])
    ensures NextSymbol([49, 50, 103]) == (Token(IntConstant(12)), [103])
  {
    TwoDigits(8, 49, 55);
    TwoDigits(10, 49, 50);
    assert [48, 49, 55] + [] == [48, 49, 55] && [48, 56] + [] == [48, 56] && [49, 50] + [103] == [49, 50, 103];
    assert [48, 49, 55][1..] == [49, 55] && [48, 56][1..] == [56];
    NumberIff([48, 49, 55], []);
    NumberIff([49, 50], [103]);
    NotInBase(8, 56);
    NumberIff([48, 56], []);
  }

  lemma TwoDigits(base: nat, a: byte, b: byte)
    requires DigitValue(a) < base && DigitValue(b) < base && base <= 10
    ensures Numeral(base, [a, b]) == Some(DigitValue(a) * base + DigitValue(b))
  {
    var d := [DigitValue(a), DigitValue(b)];
    assert DigitValues([a, b]) == d && d[..1] == [DigitValue(a)] && [DigitValue(a)][..0] == [];
    assert FromDigits(base, [DigitValue(a)]) == DigitValue(a);
  }

  lemma NotInBase(base: nat, a: byte)
    requires DigitValue(a) >= base
    ensures Numeral(base, [a]) == None
  {
    assert DigitValue([a][0]) >= base;
  }

  // ---------------------------------------------------------------- literals

  ghost predicate Inside(a: byte, text: bytes) {
    forall i :: 0 <= i < |text| ==> text[i] != a && text[i] != 10 && text[i] != 13
  }

  /** Between two quotes of one kind stands the text itself, unless there is a backquote in it. */
  lemma LiteralIff(a: byte, text: bytes, rest: bytes)
    requires (a == 34 || a == 39) && Inside(a, text)
    ensures NextSymbol([a] + text + [a] + rest)
         == (if 96 in text then Error else Token(StringConstant(text)), rest)
  {
    var s := [a] + text + [a] + rest;
    assert s[0] == a && s[1..] == text + ([a] + rest);
    LiteralEnds(a, s[1..], |text|);
    assert s[1..][..|text|] == text && s[1..][|text| + 1..] == rest;
  }

  /** A line end in front of the second quote is an error, and taken with it; so is the end of input. */
  lemma LiteralFails(a: byte, text: bytes, c: byte, rest: bytes)
    requires (a == 34 || a == 39) && Inside(a, text) && (c == 10 || c == 13)
    ensures NextSymbol([a] + text + [c] + rest) == (Error, rest)
    ensures NextSymbol([a] + text) == (Error, [])
  {
    var s := [a] + text + [c] + rest;
    assert s[0] == a && s[1..] == text + ([c] + rest);
    LiteralEnds(a, s[1..], |text|);
    assert s[1..][|text| + 1..] == rest;
    assert ([a] + text)[1..] == text;
    LiteralEnds(a, text, |text|);
  }

  // ---------------------------------------------------------------- everything else

  /** Blanks and line ends are skipped. */
  lemma BlankSkipped(c: byte, s: bytes)
    requires c == 9 || 10 <= c <= 13 || c == 32
    ensures NextSymbol([c] + s) == NextSymbol(s)
  {
    assert ([c] + s)[1..] == s;
  }

  /** What begins neither a name nor a number nor a literal is an error of one byte. */
  lemma OtherByte(c: byte, s: bytes)
    requires !(9 <= c <= 13 || c == 32 || c == 34 || c == 39 || 48 <= c <= 57 || 65 <= c <= 90 || c == 95
               || 97 <= c <= 122)
    ensures NextSymbol([c] + s) == (Error, s)
  {
    assert ([c] + s)[1..] == s;
  }

  /** A name is taken with all letters, digits and underscores. */
  lemma NameIs(name: bytes, rest: bytes)
    requires name != [] && !(48 <= name[0] <= 57)
    requires forall i :: 0 <= i < |name| ==>
               48 <= name[i] <= 57 || 65 <= name[i] <= 90 || name[i] == 95 || 97 <= name[i] <= 122
    requires rest == [] || !(48 <= rest[0] <= 57 || 65 <= rest[0] <= 90 || rest[0] == 95 || 97 <= rest[0] <= 122)
    ensures NextSymbol(name + rest) == (Token(Identifier(name)), rest)
  {
    ReadName(name, rest);
  }
}
