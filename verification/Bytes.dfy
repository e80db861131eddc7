/** Machine integers and byte strings as the Go code uses them. */
module Bytes {

  type byte = x: int | 0 <= x < 256

  type bytes = seq<byte>

  const TWO_32: int := 0x1_0000_0000
  const TWO_63: int := 0x8000_0000_0000_0000
  const TWO_64: int := 0x1_0000_0000_0000_0000

  /** types.Lenthaddr: an address is an array of so many bytes. */
  const ADDRESS_LENGTH := 47

  type uint64 = x: int | 0 <= x < 0x1_0000_0000_0000_0000

  /** bytes.Compare(a, b) < 0: the order of keys and of strings. */
  predicate Before(a: bytes, b: bytes) {
    b != [] && (a == [] || a[0] < b[0] || (a[0] == b[0] && Before(a[1..], b[1..])))
  }

  lemma TakeDrop(a: bytes, b: bytes)
    ensures (a + b)[..|a|] == a && (a + b)[|a|..] == b
  {
  }

  lemma Associate(a: bytes, b: bytes, c: bytes)
    ensures (a + b) + c == a + (b + c)
  {
  }

  /** Go's uint64 addition: wraps around. */
  function Add64(a: uint64, b: uint64): uint64 {
    (a + b) % 0x1_0000_0000_0000_0000
  }

  lemma AddOne(h: uint64)
    requires h + 1 < 0x1_0000_0000_0000_0000
    ensures Add64(h, 1) == h + 1
  {
  }

  /** Go's uint64 subtraction: wraps around. */
  function Sub64(a: uint64, b: uint64): uint64 {
    (a - b) % 0x1_0000_0000_0000_0000
  }

  /** Go's conversion int64(a): the upper half becomes negative. */
  function Int64(a: uint64): int {
    if a < 0x8000_0000_0000_0000 then a else a - 0x1_0000_0000_0000_0000
  }

  /** The k low bytes of n, least significant first (encoding/binary, LittleEndian). */
  function LittleEndian(n: nat, k: nat): (r: bytes)
    ensures |r| == k
  {
    if k == 0 then [] else [n % 256] + LittleEndian(n / 256, k - 1)
  }

  function FromLittleEndian(s: bytes): nat {
    if s == [] then 0 else s[0] + 256 * FromLittleEndian(s[1..])
  }

  function Power(b: nat, e: nat): nat {
    if e == 0 then 1 else b * Power(b, e - 1)
  }

  lemma PowerPositive(b: nat, e: nat)
    requires 0 < b
    ensures 0 < Power(b, e)
  {
  }

  /** Reading back what was written gives the number, reduced to the width. */
  lemma {:induction false} LittleEndianRoundTrip(n: nat, k: nat)
    ensures n < Power(256, k) ==> FromLittleEndian(LittleEndian(n, k)) == n
  {
    if k > 0 && n < Power(256, k) {
      assert n / 256 < Power(256, k - 1);
      LittleEndianRoundTrip(n / 256, k - 1);
      var r := LittleEndian(n, k);
      assert r[1..] == LittleEndian(n / 256, k - 1);
    }
  }

  lemma {:induction false} FromLittleEndianBound(s: bytes)
    ensures FromLittleEndian(s) < Power(256, |s|)
  {
    if s != [] {
      FromLittleEndianBound(s[1..]);
    }
  }

  lemma Power256Values()
    ensures Power(256, 4) == TWO_32 && Power(256, 8) == TWO_64
  {
    assert Power(256, 2) == 65536;
    assert Power(256, 3) == 16777216;
    assert Power(256, 4) == TWO_32;
    assert Power(256, 5) == 256 * Power(256, 4);
    assert Power(256, 6) == 256 * Power(256, 5);
    assert Power(256, 7) == 256 * Power(256, 6);
    assert Power(256, 8) == 256 * Power(256, 7);
  }

  function Put32(n: nat): (r: bytes)
    ensures |r| == 4
  {
    LittleEndian(n, 4)
  }

  function Put64(n: uint64): (r: bytes)
    ensures |r| == 8
  {
    LittleEndian(n, 8)
  }

  function Get64(s: bytes): (r: uint64)
    requires |s| == 8
  {
    FromLittleEndianBound(s);
    Power256Values();
    FromLittleEndian(s)
  }

  lemma Put64RoundTrip(n: uint64)
    ensures Get64(Put64(n)) == n
  {
    Power256Values();
    LittleEndianRoundTrip(n, 8);
  }

  lemma Put32RoundTrip(n: nat)
    requires n < TWO_32
    ensures FromLittleEndian(Put32(n)) == n
  {
    Power256Values();
    LittleEndianRoundTrip(n, 4);
  }

  function Repeat<T>(x: T, n: nat): (r: seq<T>)
    ensures |r| == n && forall i :: 0 <= i < n ==> r[i] == x
  {
    seq(n, _ => x)
  }
}
