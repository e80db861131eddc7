/** What one call of the lexer returns, as a function of the bytes not yet read
    (contract/parser/ctypes.go, word.go). */
module LexSpec {
  import opened Bytes
  import opened Options

  const LF: byte := 10
  const CR: byte := 13
  const SPACE: byte := 32
  const DOUBLE_QUOTE: byte := 34
  const SINGLE_QUOTE: byte := 39
  const ZERO: byte := 48
  const BACKQUOTE: byte := 96

  // ---------------------------------------------------------------- character classes

  predicate IsSpace(c: byte) { c == 9 || c == 11 || c == 12 || c == 32 }
  predicate IsNewline(c: byte) { c == LF || c == CR }
  predicate IsDigit(c: byte) { 48 <= c <= 57 }
  predicate IsXdigit(c: byte) { IsDigit(c) || 65 <= c <= 70 || 97 <= c <= 102 }
  predicate IsAlpha(c: byte) { 65 <= c <= 90 || 97 <= c <= 122 || c == 95 }
  predicate IsAlnum(c: byte) { IsAlpha(c) || IsDigit(c) }
  predicate IsQuote(c: byte) { c == SINGLE_QUOTE || c == DOUBLE_QUOTE }

  // ---------------------------------------------------------------- words

  datatype Word = Identifier(name: bytes) | IntConstant(number: uint64) | StringConstant(text: bytes)

  datatype Symbol = Eof | Error | Token(word: Word)

  /** The length of the longest prefix whose bytes all satisfy p. */
  function Run(p: byte -> bool, s: bytes): (n: nat)
    ensures n <= |s|
    ensures forall i :: 0 <= i < n ==> p(s[i])
    ensures n < |s| ==> !p(s[n])
  {
    if s == [] || !p(s[0]) then 0 else 1 + Run(p, s[1..])
  }

  lemma RunIs(p: byte -> bool, s: bytes, n: nat)
    requires n <= |s|
    requires forall i :: 0 <= i < n ==> p(s[i])
    requires n < |s| ==> !p(s[n])
    ensures Run(p, s) == n
  {
    var m := Run(p, s);
    assert m < |s| ==> !p(s[m]);
  }

  /** Inside a literal opened by the quote a: neither the quote nor a line end. */
  function InLiteral(a: byte): byte -> bool {
    (c: byte) => c != a && !IsNewline(c)
  }

  function DigitValue(c: byte): nat {
    if 48 <= c <= 57 then c - 48 else if 97 <= c <= 102 then c - 87 else if 65 <= c <= 70 then c - 55 else 99
  }

  /** strconv.ParseUint digits in one base, without overflow past 64 bits. */
  function Accumulate(base: nat, s: bytes, n: nat): Option<uint64>
    requires n < TWO_64
    decreases |s|
  {
    if s == [] then Some(n)
    else if DigitValue(s[0]) >= base || n * base + DigitValue(s[0]) >= TWO_64 then None
    else Accumulate(base, s[1..], n * base + DigitValue(s[0]))
  }

  /** strconv.ParseUint(word, 0, 64) on the words getDigit collects: a leading 0 means octal. */
  function ParseUint(word: bytes): Option<uint64> {
    if word != [] && word[0] == ZERO then Accumulate(8, word[1..], 0) else Accumulate(10, word, 0)
  }

  /** How many bytes getDigit takes after the first digit. */
  function DigitsAfter(s: bytes): (n: nat)
    requires s != []
    ensures n < |s|
  {
    if s[0] == ZERO && (|s| == 1 || (s[1] != 120 && s[1] != 88 && !IsDigit(s[1]))) then 0
    else Run(IsXdigit, s[1..])
  }

  function NumberSymbol(word: bytes): Symbol {
    match ParseUint(word)
    case None => Error
    case Some(v) => Token(IntConstant(v))
  }

  /** A literal's text is unquoted as a raw string, which a backquote would end early. */
  function LiteralSymbol(text: bytes): Symbol {
    if BACKQUOTE in text then Error else Token(StringConstant(text))
  }

  /** A literal opened by the quote a: its symbol and what follows it. */
  function Literal(a: byte, body: bytes): (Symbol, bytes) {
    var n := Run(InLiteral(a), body);
    if n == |body| then (Error, [])
    else if IsNewline(body[n]) then (Error, body[n + 1..])
    else (LiteralSymbol(body[..n]), body[n + 1..])
  }

  lemma LiteralEnds(a: byte, body: bytes, n: nat)
    requires n <= |body| && forall i :: 0 <= i < n ==> InLiteral(a)(body[i])
    requires n < |body| ==> body[n] == a || IsNewline(body[n])
    ensures Literal(a, body) ==
            if n == |body| then (Error, [])
            else if IsNewline(body[n]) then (Error, body[n + 1..])
            else (LiteralSymbol(body[..n]), body[n + 1..])
  {
    RunIs(InLiteral(a), body, n);
  }

  /** The next symbol of the input s, and what is left of the input after it. */
  function NextSymbol(s: bytes): (r: (Symbol, bytes))
    ensures s == [] ==> r == (Eof, [])
    ensures s != [] ==> |r.1| < |s|
    ensures r.0 == Eof ==> r.1 == []
    decreases |s|
  {
    if s == [] then (Eof, [])
    else if IsSpace(s[0]) || IsNewline(s[0]) then NextSymbol(s[1..])
    else if IsAlpha(s[0]) then
      var n := 1 + Run(IsAlnum, s[1..]);
      (Token(Identifier(s[..n])), s[n..])
    else if IsDigit(s[0]) then
      var n := 1 + DigitsAfter(s);
      (NumberSymbol(s[..n]), s[n..])
    else if IsQuote(s[0]) then Literal(s[0], s[1..])
    else (Error, s[1..])
  }

  /** All the words of an input, or None if one of its symbols is a lexical error. */
  function Words(s: bytes): Option<seq<Word>>
    decreases |s|
  {
    if s == [] then Some([])
    else
      var (sym, rest) := NextSymbol(s);
      match sym
      case Eof => Some([])
      case Error => None
      case Token(w) =>
        match Words(rest)
        case None => None
        case Some(ws) => Some([w] + ws)
  }

  /** All the symbols of an input, None for a lexical error. */
  function Symbols(s: bytes): seq<Option<Word>>
    decreases |s|
  {
    if s == [] then []
    else
      var (sym, rest) := NextSymbol(s);
      match sym
      case Eof => []
      case Error => [None] + Symbols(rest)
      case Token(w) => [Some(w)] + Symbols(rest)
  }

  function Whole(ws: seq<Word>): (xs: seq<Option<Word>>)
    ensures |xs| == |ws| && forall i :: 0 <= i < |ws| ==> xs[i] == Some(ws[i])
  {
    if ws == [] then [] else [Some(ws[0])] + Whole(ws[1..])
  }

  /** Without errors the symbols are the words. */
  lemma {:induction false} SymbolsAreWords(s: bytes)
    ensures Words(s).Some? ==> Symbols(s) == Whole(Words(s).value)
    ensures Words(s) == None ==> None in Symbols(s)
    decreases |s|
  {
    if s != [] {
      var (sym, rest) := NextSymbol(s);
      if sym.Token? {
        SymbolsAreWords(rest);
        if Words(rest).Some? {
          var ws := Words(rest).value;
          assert ([sym.word] + ws)[1..] == ws;
        }
      }
    }
  }

  // ---------------------------------------------------------------- printing and reading back

  /** strconv.FormatUint(n, 10). */
  function Decimal(n: nat): (s: bytes)
    ensures s != [] && forall i :: 0 <= i < |s| ==> IsDigit(s[i])
  {
    if n < 10 then [48 + n] else Decimal(n / 10) + [48 + n % 10]
  }

  lemma {:induction false} AccumulateAppend(base: nat, s: bytes, c: byte, n: nat)
    requires n < TWO_64
    ensures Accumulate(base, s + [c], n) ==
            match Accumulate(base, s, n)
            case None => None
            case Some(m) => if DigitValue(c) >= base || m * base + DigitValue(c) >= TWO_64 then None
                            else Some(m * base + DigitValue(c))
  {
    if s == [] {
      assert s + [c] == [c];
    } else {
      assert (s + [c])[1..] == s[1..] + [c];
      if !(DigitValue(s[0]) >= base || n * base + DigitValue(s[0]) >= TWO_64) {
        AccumulateAppend(base, s[1..], c, n * base + DigitValue(s[0]));
      }
    }
  }

  lemma {:induction false} AccumulateDecimal(n: nat)
    requires n < TWO_64
    ensures Accumulate(10, Decimal(n), 0) == Some(n)
    ensures n > 0 ==> Decimal(n)[0] != ZERO
  {
    if n >= 10 {
      AccumulateDecimal(n / 10);
      AccumulateAppend(10, Decimal(n / 10), 48 + n % 10, 0);
    } else {
      assert Accumulate(10, [48 + n], 0) == Some(n);
    }
  }

  /** Every 64-bit number printed in decimal is read back as itself. */
  lemma ParseDecimal(n: uint64)
    ensures ParseUint(Decimal(n)) == Some(n)
  {
    AccumulateDecimal(n);
  }

  lemma SkipSpace(s: bytes)
    ensures NextSymbol([SPACE] + s) == NextSymbol(s)
  {
    assert ([SPACE] + s)[1..] == s;
  }

  predicate IsName(name: bytes) {
    name != [] && IsAlpha(name[0]) && forall i :: 0 <= i < |name| ==> IsAlnum(name[i])
  }

  lemma HeadAndRest(d: bytes, rest: bytes)
    requires d != []
    ensures var s, n := d + rest, |d| - 1;
            && s[0] == d[0] && |s[1..]| == n + |rest|
            && (forall i :: 0 <= i < n ==> s[1..][i] == d[i + 1])
            && (forall i :: 0 <= i < |rest| ==> s[1..][n + i] == rest[i])
            && s[..|d|] == d && s[|d|..] == rest
  {
  }

  lemma ReadName(name: bytes, rest: bytes)
    requires IsName(name) && (rest == [] || !IsAlnum(rest[0]))
    ensures NextSymbol(name + rest) == (Token(Identifier(name)), rest)
  {
    var s := name + rest;
    var n := |name| - 1;
    HeadAndRest(name, rest);
    RunIs(IsAlnum, s[1..], n);
  }

  lemma ReadNumber(n: uint64, rest: bytes)
    requires rest == [] || (!IsXdigit(rest[0]) && rest[0] != 120 && rest[0] != 88)
    ensures NextSymbol(Decimal(n) + rest) == (Token(IntConstant(n)), rest)
  {
    var d := Decimal(n);
    var s := d + rest;
    ParseDecimal(n);
    AccumulateDecimal(n);
    HeadAndRest(d, rest);
    RunIs(IsXdigit, s[1..], |d| - 1);
    assert DigitsAfter(s) == |d| - 1;
  }

  /** The text can stand between double quotes: no double quote, backquote or line end in it. */
  predicate Quotable(text: bytes) {
    forall i :: 0 <= i < |text| ==> text[i] != DOUBLE_QUOTE && text[i] != BACKQUOTE && !IsNewline(text[i])
  }

  function Quote(text: bytes): bytes {
    [DOUBLE_QUOTE] + text + [DOUBLE_QUOTE]
  }

  lemma ReadQuoted(text: bytes, rest: bytes)
    requires Quotable(text)
    ensures NextSymbol(Quote(text) + rest) == (Token(StringConstant(text)), rest)
  {
    var s := Quote(text) + rest;
    assert s[0] == DOUBLE_QUOTE;
    assert s[1..] == text + [DOUBLE_QUOTE] + rest;
    LiteralEnds(DOUBLE_QUOTE, s[1..], |text|);
    assert s[1..][..|text|] == text && s[1..][|text| + 1..] == rest;
  }
}
