/** The Base58 codec (until/base58.go) and the account addresses built on it
    (until/privkey.go, types/address.go). Text is handled byte by byte, so a
    Go string is a byte sequence here. */
module Base58 {
  import opened Bytes
  import opened Radix

  // The letters in order, cut where the ASCII codes jump.
  const UPTO_9: string := "123456789"
  const UPTO_H: string := UPTO_9 + "ABCDEFGH"
  const UPTO_N: string := UPTO_H + "JKLMN"
  const UPTO_Z: string := UPTO_N + "PQRSTUVWXYZ"
  const UPTO_K: string := UPTO_Z + "abcdefghijk"
  const ALPHABET: string := UPTO_K + "mnopqrstuvwxyz"

  const ZERO_CHAR: byte := 49  // '1'

  const INVALID: byte := 255

  /** The code of letter d. */
  function Letter(d: nat): byte
    requires d < 58
  {
    d + if d < 9 then 49 else if d < 17 then 56 else if d < 22 then 57
        else if d < 33 then 58 else if d < 44 then 64 else 65
  }

  /** Those are the codes of the alphabet the encoder indexes. */
  lemma LettersAreTheAlphabet(d: nat)
    requires d < 58
    ensures |ALPHABET| == 58 && ALPHABET[d] as int == Letter(d)
  {
    assert |UPTO_9| == 9 && |UPTO_H| == 17 && |UPTO_N| == 22 && |UPTO_Z| == 33 && |UPTO_K| == 44;
    if d < 9 {
      assert ALPHABET[d] == UPTO_K[d] == UPTO_Z[d] == UPTO_N[d] == UPTO_H[d] == UPTO_9[d];
    } else if d < 17 {
      assert ALPHABET[d] == UPTO_K[d] == UPTO_Z[d] == UPTO_N[d] == UPTO_H[d] == "ABCDEFGH"[d - 9];
    } else if d < 22 {
      assert ALPHABET[d] == UPTO_K[d] == UPTO_Z[d] == UPTO_N[d] == "JKLMN"[d - 17];
    } else if d < 33 {
      assert ALPHABET[d] == UPTO_K[d] == UPTO_Z[d] == "PQRSTUVWXYZ"[d - 22];
    } else if d < 44 {
      assert ALPHABET[d] == UPTO_K[d] == "abcdefghijk"[d - 33];
    } else {
      assert ALPHABET[d] == "mnopqrstuvwxyz"[d - 44];
    }
  }

  /** The b58 table: the value of a letter, 255 for a byte that is not one. */
  function Value(c: byte): byte {
    if 49 <= c <= 57 then c - 49          // '1'..'9'
    else if 65 <= c <= 72 then c - 56     // 'A'..'H'
    else if 74 <= c <= 78 then c - 57     // 'J'..'N'
    else if 80 <= c <= 90 then c - 58     // 'P'..'Z'
    else if 97 <= c <= 107 then c - 64    // 'a'..'k'
    else if 109 <= c <= 122 then c - 65   // 'm'..'z'
    else INVALID
  }

  /** The decoding table and the alphabet are inverse to each other. */
  lemma TablesAgree()
    ensures forall d: nat :: d < 58 ==> Value(Letter(d)) == d
    ensures forall c: byte :: Value(c) != INVALID ==> Value(c) < 58 && Letter(Value(c)) == c
    ensures forall c: byte :: Value(c) == 0 <==> c == ZERO_CHAR
  {
  }

  // ---------------------------------------------------------------- specification

  function Values(s: bytes): seq<nat> {
    seq(|s|, i requires 0 <= i < |s| => Value(s[i]) as nat)
  }

  predicate InAlphabet(s: bytes) {
    forall i :: 0 <= i < |s| ==> Value(s[i]) != INVALID
  }

  function Letters(ds: seq<nat>): bytes
    requires Digits(58, ds)
  {
    seq(|ds|, i requires 0 <= i < |ds| => Letter(ds[i]))
  }

  function Encoded(b: bytes): bytes {
    ConvertRoundTrip(256, 58, b);
    Letters(Convert(256, 58, b))
  }

  function Decoded(s: bytes): bytes {
    if !InAlphabet(s) then [] else
      TablesAgree();
      ConvertRoundTrip(58, 256, Values(s));
      Convert(58, 256, Values(s))
  }

  lemma LettersValues(s: bytes)
    requires InAlphabet(s)
    ensures Digits(58, Values(s)) && Letters(Values(s)) == s
  {
    TablesAgree();
  }

  lemma ValuesLetters(ds: seq<nat>)
    requires Digits(58, ds)
    ensures InAlphabet(Letters(ds)) && Values(Letters(ds)) == ds
  {
    TablesAgree();
  }

  /** Encoding loses nothing: every byte string comes back, leading zero bytes included. */
  lemma DecodeEncode(b: bytes)
    ensures InAlphabet(Encoded(b))
    ensures Decoded(Encoded(b)) == b
  {
    ConvertRoundTrip(256, 58, b);
    ValuesLetters(Convert(256, 58, b));
  }

  /** Every text over the alphabet is the encoding of exactly what it decodes to; and a text
      with any other byte decodes to nothing, so it comes back only when it is empty. */
  lemma EncodeDecode(s: bytes)
    ensures Encoded(Decoded(s)) == s <==> InAlphabet(s)
  {
    if InAlphabet(s) {
      LettersValues(s);
      ConvertRoundTrip(58, 256, Values(s));
    } else {
      DecodeEncode([]);
      assert Convert(256, 58, []) == [];
    }
  }

  /** What the encoding is, as a number: the same value in base 58 as the bytes in base 256, and as many
      leading 1s as they have leading zeros. Nothing else is. */
  lemma EncodedIff(b: bytes, t: bytes)
    ensures t == Encoded(b) <==>
            && InAlphabet(t) && FromDigits(58, Values(t)) == FromDigits(256, b)
            && LeadingZeros(Values(t)) == LeadingZeros(b)
  {
    ConvertRoundTrip(256, 58, b);
    ConvertedIs(256, 58, b);
    ValuesLetters(Convert(256, 58, b));
    if InAlphabet(t) {
      LettersValues(t);
      ConvertedIs(58, 58, Values(t));
      SameConvert(58, Values(t));
    }
  }

  // ---------------------------------------------------------------- the Go loops

  lemma SuffixValues(b: bytes, i: nat)
    requires i < |b|
    ensures var s := Values(b[i..]); |s| == |b| - i && s[0] == Value(b[i]) && s[1..] == Values(b[i + 1..])
  {
    var s, t := Values(b[i..]), Values(b[i + 1..]);
    forall k | 0 <= k < |t| ensures s[1..][k] == t[k] {
    }
  }

  lemma ValueOfSuffix(b: bytes, i: nat)
    requires i < |b|
    ensures FromDigits(58, Values(b[i..]))
         == FromDigits(58, Values(b[i + 1..])) + Power(58, |b| - i - 1) * Value(b[i])
  {
    SuffixValues(b, i);
    FirstDigit(58, Values(b[i..]), Value(b[i]), Values(b[i + 1..]));
  }

  lemma DecodedFrom(b: bytes, zeros: nat)
    requires InAlphabet(b) && zeros <= |b|
    requires forall k :: 0 <= k < zeros ==> b[k] == ZERO_CHAR
    requires zeros < |b| ==> b[zeros] != ZERO_CHAR
    ensures Digits(256, ToDigits(256, FromDigits(58, Values(b))))
    ensures Decoded(b) == Repeat(0, zeros) + ToDigits(256, FromDigits(58, Values(b)))
  {
    TablesAgree();
    ToDigitsShape(256, FromDigits(58, Values(b)));
    LeadingZerosUnique(Values(b), zeros);
  }

  method Decode(b: bytes) returns (val: bytes)
    ensures val == Decoded(b)
  {
    var answer, j: nat := 0, 1;
    var i := |b|;
    while i > 0
      invariant 0 <= i <= |b|
      invariant InAlphabet(b[i..])
      invariant j == Power(58, |b| - i)
      invariant answer == FromDigits(58, Values(b[i..]))
    {
      i := i - 1;
      var tmp := Value(b[i]);
      if tmp == INVALID {
        return [];
      }
      ValueOfSuffix(b, i);
      answer := answer + j * tmp;
      j := j * 58;
    }
    assert b[0..] == b;
    var numZeros := 0;
    while numZeros < |b| && b[numZeros] == ZERO_CHAR
      invariant 0 <= numZeros <= |b|
      invariant forall k :: 0 <= k < numZeros ==> b[k] == ZERO_CHAR
    {
      numZeros := numZeros + 1;
    }
    DecodedFrom(b, numZeros);
    val := Repeat(0, numZeros) + ToDigits(256, answer);
  }

  /** What the appending loops have put in the buffer once x is left to be divided. */
  function Backwards(s: bytes): (r: bytes)
    ensures |r| == |s|
    ensures forall i :: 0 <= i < |s| ==> r[i] == s[|s| - 1 - i]
  {
    seq(|s|, i requires 0 <= i < |s| => s[|s| - 1 - i])
  }

  method ReverseInPlace(a: array<byte>)
    modifies a
    ensures a[..] == Backwards(old(a[..]))
  {
    var alen := a.Length;
    var i := 0;
    while i < alen / 2
      invariant 0 <= i <= alen / 2
      invariant forall k :: 0 <= k < i || alen - i <= k < alen ==> a[k] == old(a[alen - 1 - k])
      invariant forall k :: i <= k < alen - i ==> a[k] == old(a[k])
    {
      a[i], a[alen - 1 - i] := a[alen - 1 - i], a[i];
      i := i + 1;
    }
  }

  lemma BackwardsCons(d: nat, done: seq<nat>)
    requires d < 58 && Digits(58, done)
    ensures Backwards(Letters([d] + done)) == Backwards(Letters(done)) + [Letter(d)]
  {
    var l, r := Letters([d] + done), Letters(done);
    assert l[0] == Letter(d);
    forall i | 0 <= i < |done| ensures l[i + 1] == r[i] {
    }
    forall i | 0 <= i <= |done| ensures Backwards(l)[i] == (Backwards(r) + [Letter(d)])[i] {
    }
  }

  lemma BackwardsTwice(s: bytes)
    ensures Backwards(Backwards(s)) == s
  {
  }

  /** The loop that divides: `done` holds the digits of n below those of x, and the buffer their
      letters. */
  ghost predicate Dividing(n: nat, x: nat, done: seq<nat>, answer: bytes) {
    && Digits(58, done) && answer == Backwards(Letters(done))
    && ToDigits(58, n) == ToDigits(58, x) + done
  }

  lemma DivideOnce(n: nat, x: nat, done: seq<nat>, answer: bytes)
    requires x > 0 && Dividing(n, x, done, answer)
    ensures Dividing(n, x / 58, [x % 58] + done, answer + [Letter(x % 58)])
  {
    BackwardsCons(x % 58, done);
    assert ToDigits(58, x) == ToDigits(58, x / 58) + [x % 58];
    assert (ToDigits(58, x / 58) + [x % 58]) + done == ToDigits(58, x / 58) + ([x % 58] + done);
  }

  /** The loop over leading zero bytes. */
  ghost predicate Leading(n: nat, i: nat, done: seq<nat>, answer: bytes) {
    && Digits(58, done) && answer == Backwards(Letters(done))
    && done == Repeat(0, i) + ToDigits(58, n)
  }

  lemma LeadOnce(n: nat, i: nat, done: seq<nat>, answer: bytes)
    requires Leading(n, i, done, answer)
    ensures Leading(n, i + 1, [0] + done, answer + [ZERO_CHAR])
  {
    BackwardsCons(0, done);
    assert [0] + (Repeat(0, i) + ToDigits(58, n)) == Repeat(0, i + 1) + ToDigits(58, n);
  }

  lemma EncodedFrom(b: bytes, zeros: nat, done: seq<nat>, answer: bytes)
    requires Leading(FromDigits(256, b), zeros, done, answer)
    requires zeros <= |b| && forall k :: 0 <= k < zeros ==> b[k] == 0
    requires zeros < |b| ==> b[zeros] != 0
    ensures Backwards(answer) == Encoded(b)
  {
    LeadingZerosUnique(b, zeros);
    assert done == Convert(256, 58, b);
    BackwardsTwice(Letters(done));
  }

  method Encode(b: bytes) returns (text: bytes)
    ensures text == Encoded(b)
  {
    var x: nat := FromDigits(256, b);
    ghost var n, done: seq<nat> := x, [];
    var answer: bytes := [];
    while x > 0
      invariant Dividing(n, x, done, answer)
    {
      DivideOnce(n, x, done, answer);
      answer, done := answer + [Letter(x % 58)], [x % 58] + done;
      x := x / 58;
    }
    var i := 0;
    while i < |b| && b[i] == 0
      invariant 0 <= i <= |b|
      invariant forall k :: 0 <= k < i ==> b[k] == 0
      invariant Leading(n, i, done, answer)
    {
      LeadOnce(n, i, done, answer);
      answer, done := answer + [ZERO_CHAR], [0] + done;
      i := i + 1;
    }
    EncodedFrom(b, i, done, answer);
    var buf := new byte[|answer|](k requires 0 <= k < |answer| => answer[k]);
    assert buf[..] == answer;
    ReverseInPlace(buf);
    text := buf[..];
  }

  // ---------------------------------------------------------------- checked encoding

  datatype CheckResult = Payload(input: bytes, version: byte) | InvalidFormat | ChecksumError

  /** The four checksum bytes are a double SHA-256; any total function will do here. */
  ghost predicate FourBytes(checksum: bytes -> bytes) {
    forall b :: |checksum(b)| == 4
  }

  function CheckEncode(checksum: bytes -> bytes, input: bytes, version: byte): bytes {
    Encoded([version] + input + checksum([version] + input))
  }

  function CheckDecode(checksum: bytes -> bytes, text: bytes): CheckResult {
    var decoded := Decoded(text);
    if |decoded| < 5 then InvalidFormat
    else if checksum(decoded[..|decoded| - 4]) != decoded[|decoded| - 4..] then ChecksumError
    else Payload(decoded[1..|decoded| - 4], decoded[0])
  }

  /** The bytes a payload is read from are the version, the payload and their checksum. */
  lemma CheckedParts(checksum: bytes -> bytes, d: bytes, input: bytes, version: byte)
    requires FourBytes(checksum)
    ensures |d| >= 5 && checksum(d[..|d| - 4]) == d[|d| - 4..] && d[1..|d| - 4] == input && d[0] == version
       <==> d == [version] + input + checksum([version] + input)
  {
    var body := [version] + input;
    if d == body + checksum(body) {
      TakeDrop(body, checksum(body));
      assert d[..|d| - 4] == body;
      assert body[1..] == input;
    }
    if |d| >= 5 && d[1..|d| - 4] == input && d[0] == version {
      assert d[..|d| - 4] == body;
      assert d == d[..|d| - 4] + d[|d| - 4..];
    }
  }

  /** The only texts accepted with a payload are the ones CheckEncode prints for it. */
  lemma CheckDecodeInvertsCheckEncode(checksum: bytes -> bytes, text: bytes, input: bytes, version: byte)
    requires FourBytes(checksum)
    ensures CheckDecode(checksum, text) == Payload(input, version)
       <==> text == CheckEncode(checksum, input, version)
  {
    var full := [version] + input + checksum([version] + input);
    DecodeEncode(full);
    EncodeDecode(text);
    CheckedParts(checksum, Decoded(text), input, version);
  }
}
