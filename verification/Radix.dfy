/** Positional numerals: the big-integer conversions behind the Base58 codec. */
module Radix {
  import opened Bytes

  ghost predicate Digits(base: nat, s: seq<nat>) {
    forall i :: 0 <= i < |s| ==> s[i] < base
  }

  /** The number a most-significant-first digit string stands for. */
  function FromDigits(base: nat, s: seq<nat>): nat {
    if s == [] then 0 else FromDigits(base, s[..|s| - 1]) * base + s[|s| - 1]
  }

  /** The shortest digit string of x; zero has no digits (as big.Int.Bytes). */
  function ToDigits(base: nat, x: nat): seq<nat>
    requires 2 <= base
  {
    if x == 0 then [] else ToDigits(base, x / base) + [x % base]
  }

  function LeadingZeros(s: seq<nat>): (z: nat)
    ensures z <= |s|
    ensures forall i :: 0 <= i < z ==> s[i] == 0
    ensures z < |s| ==> s[z] != 0
  {
    if s == [] || s[0] != 0 then 0 else 1 + LeadingZeros(s[1..])
  }

  /** Radix conversion that keeps leading zeros one for one, as Encode and Decode do. */
  function Convert(from: nat, to: nat, s: seq<nat>): seq<nat>
    requires 2 <= to
  {
    Repeat(0, LeadingZeros(s)) + ToDigits(to, FromDigits(from, s))
  }

  lemma {:induction false} ToDigitsShape(base: nat, x: nat)
    requires 2 <= base
    ensures Digits(base, ToDigits(base, x))
    ensures ToDigits(base, x) == [] <==> x == 0
    ensures x > 0 ==> ToDigits(base, x)[0] != 0
  {
    if x != 0 {
      ToDigitsShape(base, x / base);
      if x / base == 0 {
        assert ToDigits(base, x) == [x % base];
        assert x % base == x;
      }
    }
  }

  lemma {:induction false} FromToDigits(base: nat, x: nat)
    requires 2 <= base
    ensures FromDigits(base, ToDigits(base, x)) == x
  {
    if x != 0 {
      FromToDigits(base, x / base);
      var d := ToDigits(base, x);
      assert d[..|d| - 1] == ToDigits(base, x / base);
      DivMod(x, base);
      assert FromDigits(base, d) == FromDigits(base, d[..|d| - 1]) * base + d[|d| - 1];
    }
  }

  lemma {:induction false} FromDigitsPositive(base: nat, s: seq<nat>)
    requires 2 <= base && s != [] && s[0] != 0
    ensures FromDigits(base, s) > 0
  {
    if |s| > 1 {
      FromDigitsPositive(base, s[..|s| - 1]);
      assert FromDigits(base, s[..|s| - 1]) * base > 0;
    }
  }

  lemma {:induction false} ToFromDigits(base: nat, s: seq<nat>)
    requires 2 <= base && Digits(base, s)
    requires s != [] ==> s[0] != 0
    ensures ToDigits(base, FromDigits(base, s)) == s
  {
    if s != [] {
      var t, d := s[..|s| - 1], s[|s| - 1];
      FromDigitsPositive(base, s);
      ToFromDigits(base, t);
      DivModUnique(base, FromDigits(base, t), d);
      assert s == t + [d];
    }
  }

  lemma DivModUnique(base: nat, q: nat, d: nat)
    requires d < base
    ensures (q * base + d) / base == q && (q * base + d) % base == d
  {
    var x := q * base + d;
    DivMod(x, base);
    if x / base < q {
      MulMonotone(x / base + 1, q, base);
      assert false;
    } else if x / base > q {
      MulMonotone(q + 1, x / base, base);
      assert false;
    }
  }

  lemma DivMod(x: nat, base: nat)
    requires 0 < base
    ensures x == (x / base) * base + x % base && x % base < base
  {
  }

  lemma MulMonotone(a: nat, b: nat, c: nat)
    requires a <= b
    ensures a * c <= b * c
  {
  }

  lemma {:induction false} SkipZeros(base: nat, z: nat, s: seq<nat>)
    ensures FromDigits(base, Repeat(0, z) + s) == FromDigits(base, s)
  {
    var w := Repeat(0, z) + s;
    if s != [] {
      SkipZeros(base, z, s[..|s| - 1]);
      assert w[..|w| - 1] == Repeat(0, z) + s[..|s| - 1];
    } else if z > 0 {
      SkipZeros(base, z - 1, s);
      assert w[..|w| - 1] == Repeat(0, z - 1) + s;
    }
  }

  lemma LeadingZerosUnique(s: seq<nat>, z: nat)
    requires z <= |s|
    requires forall i :: 0 <= i < z ==> s[i] == 0
    requires z < |s| ==> s[z] != 0
    ensures LeadingZeros(s) == z
  {
    var k := LeadingZeros(s);
    assert k < |s| ==> s[k] != 0;
  }

  lemma LeadingZerosOf(z: nat, s: seq<nat>)
    requires s != [] ==> s[0] != 0
    ensures LeadingZeros(Repeat(0, z) + s) == z
  {
    var w := Repeat(0, z) + s;
    assert s != [] ==> w[z] == s[0];
  }

  /** Converting there and back is the identity, leading zeros included. */
  lemma ConvertRoundTrip(from: nat, to: nat, s: seq<nat>)
    requires 2 <= from && 2 <= to && Digits(from, s)
    ensures Digits(to, Convert(from, to, s))
    ensures Convert(to, from, Convert(from, to, s)) == s
  {
    var z := LeadingZeros(s);
    var m := s[z..];
    assert s == Repeat(0, z) + m;
    SkipZeros(from, z, m);
    var x := FromDigits(from, m);
    var t := ToDigits(to, x);
    ToDigitsShape(to, x);
    LeadingZerosOf(z, t);
    SkipZeros(to, z, t);
    FromToDigits(to, x);
    ToFromDigits(from, m);
  }

  /** A converted numeral has the value and the leading zeros it had. */
  lemma ConvertedIs(from: nat, to: nat, s: seq<nat>)
    requires 2 <= from && 2 <= to && Digits(from, s)
    ensures FromDigits(to, Convert(from, to, s)) == FromDigits(from, s)
    ensures LeadingZeros(Convert(from, to, s)) == LeadingZeros(s)
  {
    var z, x := LeadingZeros(s), FromDigits(from, s);
    ToDigitsShape(to, x);
    FromToDigits(to, x);
    SkipZeros(to, z, ToDigits(to, x));
    LeadingZerosOf(z, ToDigits(to, x));
  }

  lemma SameConvert(base: nat, s: seq<nat>)
    requires 2 <= base && Digits(base, s)
    ensures Repeat(0, LeadingZeros(s)) + ToDigits(base, FromDigits(base, s)) == s
  {
    var z := LeadingZeros(s);
    var m := s[z..];
    assert s == Repeat(0, z) + m;
    SkipZeros(base, z, m);
    ToFromDigits(base, m);
  }

  lemma OneDigitMore(base: nat, x: nat, d: nat, n: nat)
    requires x < Power(base, n) && d < base
    ensures x * base + d < Power(base, n + 1)
  {
    MulMonotone(x + 1, Power(base, n), base);
    assert (x + 1) * base == x * base + base;
  }

  /** The digits after the leading zeros are what bounds a numeral. */
  lemma {:induction false} BoundAfterZeros(base: nat, s: seq<nat>, z: nat)
    requires Digits(base, s) && z <= |s| && forall i :: 0 <= i < z ==> s[i] == 0
    ensures FromDigits(base, s) < Power(base, |s| - z)
  {
    if s != [] {
      var t := s[..|s| - 1];
      if z < |s| {
        BoundAfterZeros(base, t, z);
        OneDigitMore(base, FromDigits(base, t), s[|s| - 1], |t| - z);
      } else {
        BoundAfterZeros(base, t, |t|);
        assert FromDigits(base, t) == 0;
      }
    }
  }

  lemma QuotientBelow(x: nat, base: nat, p: nat)
    requires 0 < base && x < base * p
    ensures x / base < p
  {
    DivMod(x, base);
    MulCommutes(p, base);
    if p <= x / base {
      MulMonotone(p, x / base, base);
    }
  }

  lemma MulCommutes(a: nat, b: nat)
    ensures a * b == b * a
  {
  }

  /** A number with n digits is at least base^(n-1). */
  lemma {:induction false} ToDigitsBound(base: nat, x: nat, n: nat)
    requires 2 <= base && x < Power(base, n)
    ensures |ToDigits(base, x)| <= n
  {
    if x != 0 {
      if n == 0 {
        assert false;
      }
      QuotientBelow(x, base, Power(base, n - 1));
      ToDigitsBound(base, x / base, n - 1);
    }
  }

  /** Peeling a numeral from its most significant end. */
  lemma {:induction false} FromDigitsHead(base: nat, s: seq<nat>)
    requires s != []
    ensures FromDigits(base, s) == s[0] * Power(base, |s| - 1) + FromDigits(base, s[1..])
  {
    var t, d := s[..|s| - 1], s[|s| - 1];
    if t != [] {
      FromDigitsHead(base, t);
      assert s[1..][..|s| - 2] == t[1..];
      var p := Power(base, |t| - 1);
      assert (s[0] * p) * base == s[0] * (base * p) by {
        MulSwap(s[0], p, base);
      }
    }
  }

  lemma FirstDigit(base: nat, s: seq<nat>, v: nat, t: seq<nat>)
    requires s != [] && s[0] == v && s[1..] == t
    ensures FromDigits(base, s) == FromDigits(base, t) + Power(base, |t|) * v
  {
    FromDigitsHead(base, s);
    MulCommutes(v, Power(base, |t|));
  }

  lemma MulSwap(a: nat, b: nat, c: nat)
    ensures (a * b) * c == a * (c * b)
  {
  }
}
