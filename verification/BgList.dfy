/** The lists of until/store/bg/bg.go: a deque whose elements lie under running indices, which
    wrap around like the int64 values they are. */
module BgList {
  import opened Bytes
  import opened Options

  type KV = map<bytes, bytes>

  const L: byte := 108   // 'l'

  function EListMetaKey(k: bytes): bytes {
    [L] + k
  }

  function EListKey(k: bytes, idx: uint64): bytes {
    [L] + k + Put64(idx)
  }

  /** For instance, the bounds of list "a" and its element number 1. */
  lemma ListKeyBytes()
    ensures EListMetaKey([97]) == [108, 97]
    ensures EListKey([97], 1) == [108, 97, 1, 0, 0, 0, 0, 0, 0, 0]
  {
    assert Put64(1) == [1, 0, 0, 0, 0, 0, 0, 0];
  }

  /** Where a list starts and ends, as unsigned indices. */
  function EListMetaValue(start: uint64, end: uint64): bytes {
    Put64(start) + Put64(end)
  }

  function DListMetaValue(buf: bytes): (uint64, uint64)
    requires |buf| >= 16
  {
    (Get64(buf[..8]), Get64(buf[8..16]))
  }

  lemma MetaValueRoundTrip(start: uint64, end: uint64)
    ensures |EListMetaValue(start, end)| == 16
    ensures DListMetaValue(EListMetaValue(start, end)) == (start, end)
  {
    var b := EListMetaValue(start, end);
    assert b[..8] == Put64(start) && b[8..16] == Put64(end);
    Put64RoundTrip(start);
    Put64RoundTrip(end);
  }

  // ---------------------------------------------------------------- which keys collide

  lemma ListKeyInjective(k: bytes, i: uint64, k1: bytes, j: uint64)
    ensures EListKey(k, i) == EListKey(k1, j) <==> k == k1 && i == j
  {
    var a, b := EListKey(k, i), EListKey(k1, j);
    assert a[1..|a| - 8] == k && a[|a| - 8..] == Put64(i);
    assert b[1..|b| - 8] == k1 && b[|b| - 8..] == Put64(j);
    Put64RoundTrip(i);
    Put64RoundTrip(j);
  }

  /** A list whose name is that of another list and an index has its bounds stored where the other
      list keeps that element. */
  lemma MetaKeyCollides(k: bytes, i: uint64, k1: bytes)
    ensures EListMetaKey(k1) == EListKey(k, i) <==> k1 == k + Put64(i)
  {
    assert EListKey(k, i) == [L] + (k + Put64(i));
    assert EListMetaKey(k1)[1..] == k1 && ([L] + (k + Put64(i)))[1..] == k + Put64(i);
  }

  /** Two lists keep out of each other's way if neither is named like an element of the other. */
  ghost predicate Apart(k: bytes, k1: bytes) {
    k != k1 && forall i: uint64 :: k1 != k + Put64(i) && k != k1 + Put64(i)
  }

  // ---------------------------------------------------------------- indices on the ring

  const MAX: uint64 := 0xFFFF_FFFF_FFFF_FFFF

  function Next(i: uint64): uint64 {
    if i == MAX then 0 else i + 1
  }

  function Prev(i: uint64): uint64 {
    if i == 0 then MAX else i - 1
  }

  /** The index n places after s. */
  function Place(s: uint64, n: uint64): uint64 {
    if s + n <= MAX then s + n else s + n - MAX - 1
  }

  function Distance(s: uint64, e: uint64): uint64 {
    if s <= e then e - s else e - s + MAX + 1
  }

  /** That is the arithmetic of 64-bit integers. */
  lemma RingIsArithmetic(s: uint64, e: uint64)
    ensures Next(s) == Add64(s, 1) && Prev(s) == Sub64(s, 1)
    ensures Place(s, e) == Add64(s, e) && Distance(s, e) == Sub64(e, s)
  {
  }

  // ---------------------------------------------------------------- what the store means

  function Bounds(kv: KV, k: bytes): (uint64, uint64)
    requires EListMetaKey(k) in kv ==> |kv[EListMetaKey(k)]| == 16
  {
    if EListMetaKey(k) in kv then DListMetaValue(kv[EListMetaKey(k)]) else (0, 0)
  }

  function Size(kv: KV, k: bytes): uint64
    requires EListMetaKey(k) in kv ==> |kv[EListMetaKey(k)]| == 16
  {
    Distance(Bounds(kv, k).0, Bounds(kv, k).1)
  }

  /** Every index between the bounds has an element. */
  ghost predicate Stored(kv: KV, k: bytes) {
    && (EListMetaKey(k) in kv ==> |kv[EListMetaKey(k)]| == 16)
    && forall i: uint64 :: i < Size(kv, k) ==> EListKey(k, Place(Bounds(kv, k).0, i)) in kv
  }

  ghost function ListOf(kv: KV, k: bytes): (r: seq<bytes>)
    requires Stored(kv, k)
    ensures |r| == Size(kv, k)
  {
    seq(Size(kv, k), i requires 0 <= i < Size(kv, k) => kv[EListKey(k, Place(Bounds(kv, k).0, i))])
  }

  /** New bounds and perhaps one new element. */
  function Rebound(kv: KV, k: bytes, start: uint64, end: uint64): KV {
    kv[EListMetaKey(k) := EListMetaValue(start, end)]
  }

  lemma MetaIsNoElement(k: bytes, i: uint64)
    ensures EListMetaKey(k) != EListKey(k, i)
  {
    MetaKeyCollides(k, i, k);
  }

  lemma BoundsAre(kv: KV, k: bytes, start: uint64, end: uint64)
    ensures EListMetaKey(k) in Rebound(kv, k, start, end)
    ensures |Rebound(kv, k, start, end)[EListMetaKey(k)]| == 16
    ensures Bounds(Rebound(kv, k, start, end), k) == (start, end)
  {
    MetaValueRoundTrip(start, end);
  }

  /** What a store holds for a list under new bounds, element by element. */
  lemma ListIs(kv: KV, k: bytes, start: uint64, end: uint64, xs: seq<bytes>)
    requires |xs| == Distance(start, end)
    requires forall i: uint64 :: i < |xs| ==>
               EListKey(k, Place(start, i)) in kv && kv[EListKey(k, Place(start, i))] == xs[i]
    ensures Stored(Rebound(kv, k, start, end), k) && ListOf(Rebound(kv, k, start, end), k) == xs
  {
    BoundsAre(kv, k, start, end);
    forall i: uint64 | i < |xs|
      ensures EListKey(k, Place(start, i)) in Rebound(kv, k, start, end)
      ensures Rebound(kv, k, start, end)[EListKey(k, Place(start, i))] == xs[i]
    {
      MetaIsNoElement(k, Place(start, i));
    }
  }

  ghost predicate KeyOf(k: bytes, b: bytes) {
    b == EListMetaKey(k) || exists i: uint64 :: b == EListKey(k, i)
  }

  lemma ApartKeys(k: bytes, k1: bytes, j: uint64)
    requires Apart(k, k1)
    ensures !KeyOf(k, EListMetaKey(k1)) && !KeyOf(k, EListKey(k1, j))
  {
    assert EListMetaKey(k)[1..] == k && EListMetaKey(k1)[1..] == k1;
    forall i: uint64 ensures EListMetaKey(k1) != EListKey(k, i) && EListKey(k1, j) != EListKey(k, i) {
      MetaKeyCollides(k, i, k1);
      ListKeyInjective(k, i, k1, j);
    }
    MetaKeyCollides(k1, j, k);
  }

  lemma ListAt(kv: KV, k: bytes, i: uint64)
    requires Stored(kv, k) && i < Size(kv, k)
    ensures EListKey(k, Place(Bounds(kv, k).0, i)) in kv
    ensures ListOf(kv, k)[i] == kv[EListKey(k, Place(Bounds(kv, k).0, i))]
  {
  }

  /** Lists apart from k do not see what happens to k's keys. */
  lemma ApartUntouched(kv: KV, now: KV, k: bytes, k1: bytes)
    requires Apart(k, k1) && Stored(kv, k1)
    requires forall b :: !KeyOf(k, b) ==> (b in now <==> b in kv) && (b in now ==> now[b] == kv[b])
    ensures Stored(now, k1) && ListOf(now, k1) == ListOf(kv, k1)
  {
    ApartKeys(k, k1, 0);
    assert Bounds(now, k1) == Bounds(kv, k1);
    forall i: uint64 | i < Size(kv, k1)
      ensures EListKey(k1, Place(Bounds(kv, k1).0, i)) in now
      ensures now[EListKey(k1, Place(Bounds(kv, k1).0, i))] == ListOf(kv, k1)[i]
    {
      ApartKeys(k, k1, Place(Bounds(kv, k1).0, i));
      ListAt(kv, k1, i);
    }
  }

  /** Everything but the keys of k is as before. */
  ghost predicate OnlyTouches(kv: KV, now: KV, k: bytes) {
    forall k1 :: Apart(k, k1) && Stored(kv, k1) ==> Stored(now, k1) && ListOf(now, k1) == ListOf(kv, k1)
  }

  lemma TouchedOne(kv: KV, k: bytes, i: uint64, v: bytes, start: uint64, end: uint64)
    ensures OnlyTouches(kv, Rebound(kv[EListKey(k, i) := v], k, start, end), k)
    ensures OnlyTouches(kv, Rebound(kv, k, start, end), k)
  {
    forall k1 | Apart(k, k1) && Stored(kv, k1)
      ensures var now := Rebound(kv[EListKey(k, i) := v], k, start, end);
              Stored(now, k1) && ListOf(now, k1) == ListOf(kv, k1)
      ensures var now := Rebound(kv, k, start, end); Stored(now, k1) && ListOf(now, k1) == ListOf(kv, k1)
    {
      ApartUntouched(kv, Rebound(kv[EListKey(k, i) := v], k, start, end), k, k1);
      ApartUntouched(kv, Rebound(kv, k, start, end), k, k1);
    }
  }

  // ---------------------------------------------------------------- the four operations

  lemma PushedLeft(kv: KV, k: bytes, v: bytes)
    requires Stored(kv, k) && |ListOf(kv, k)| < MAX
    ensures var (s, e) := Bounds(kv, k); var now := Rebound(kv[EListKey(k, Prev(s)) := v], k, Prev(s), e);
            Stored(now, k) && ListOf(now, k) == [v] + ListOf(kv, k)
  {
    var (s, e) := Bounds(kv, k);
    var xs := ListOf(kv, k);
    var put := kv[EListKey(k, Prev(s)) := v];
    forall i: uint64 | i < |xs| + 1
      ensures EListKey(k, Place(Prev(s), i)) in put && put[EListKey(k, Place(Prev(s), i))] == ([v] + xs)[i]
    {
      if i > 0 {
        assert Place(Prev(s), i) == Place(s, i - 1) != Prev(s);
        ListAt(kv, k, i - 1);
        ListKeyInjective(k, Place(s, i - 1), k, Prev(s));
      } else {
        assert Place(Prev(s), 0) == Prev(s);
      }
    }
    ListIs(put, k, Prev(s), e, [v] + xs);
  }

  lemma PushedRight(kv: KV, k: bytes, v: bytes)
    requires Stored(kv, k) && |ListOf(kv, k)| < MAX
    ensures var (s, e) := Bounds(kv, k); var now := Rebound(kv[EListKey(k, e) := v], k, s, Next(e));
            Stored(now, k) && ListOf(now, k) == ListOf(kv, k) + [v]
  {
    var (s, e) := Bounds(kv, k);
    var xs := ListOf(kv, k);
    var put := kv[EListKey(k, e) := v];
    forall i: uint64 | i < |xs| + 1
      ensures EListKey(k, Place(s, i)) in put && put[EListKey(k, Place(s, i))] == (xs + [v])[i]
    {
      if i < |xs| {
        assert Place(s, i) != e;
        ListAt(kv, k, i);
        ListKeyInjective(k, Place(s, i), k, e);
      } else {
        assert Place(s, i) == e;
      }
    }
    ListIs(put, k, s, Next(e), xs + [v]);
  }

  lemma PoppedLeft(kv: KV, k: bytes)
    requires Stored(kv, k) && ListOf(kv, k) != []
    ensures var (s, e) := Bounds(kv, k); var now := Rebound(kv, k, Next(s), e);
            && EListKey(k, s) in kv && kv[EListKey(k, s)] == ListOf(kv, k)[0]
            && Stored(now, k) && ListOf(now, k) == ListOf(kv, k)[1..]
  {
    var (s, e) := Bounds(kv, k);
    var xs := ListOf(kv, k);
    var rest := xs[1..];
    assert Place(s, 0) == s;
    ListAt(kv, k, 0);
    forall i: uint64 | i < |rest|
      ensures EListKey(k, Place(Next(s), i)) in kv && kv[EListKey(k, Place(Next(s), i))] == rest[i]
    {
      assert Place(Next(s), i) == Place(s, i + 1);
      ListAt(kv, k, i + 1);
    }
    ListIs(kv, k, Next(s), e, rest);
  }

  lemma PoppedRight(kv: KV, k: bytes)
    requires Stored(kv, k) && ListOf(kv, k) != []
    ensures var (s, e) := Bounds(kv, k); var now := Rebound(kv, k, s, Prev(e)); var xs := ListOf(kv, k);
            && EListKey(k, Prev(e)) in kv && kv[EListKey(k, Prev(e))] == xs[|xs| - 1]
            && Stored(now, k) && ListOf(now, k) == xs[..|xs| - 1]
  {
    var (s, e) := Bounds(kv, k);
    var xs := ListOf(kv, k);
    var rest := xs[..|xs| - 1];
    assert Place(s, |xs| - 1) == Prev(e);
    ListAt(kv, k, |xs| - 1);
    forall i: uint64 | i < |rest|
      ensures EListKey(k, Place(s, i)) in kv && kv[EListKey(k, Place(s, i))] == rest[i]
    {
      ListAt(kv, k, i);
    }
    ListIs(kv, k, s, Prev(e), rest);
  }

  /** A store transaction on lists; None is an error. */
  class ListTxn {
    var kv: KV

    constructor (kv: KV)
      ensures this.kv == kv
    {
      this.kv := kv;
    }

    /** i + 1 on int64. */
    method After(i: uint64) returns (j: uint64)
      ensures j == Next(i)
    {
      RingIsArithmetic(i, 1);
      j := Add64(i, 1);
    }

    /** i - 1 on int64. */
    method Before(i: uint64) returns (j: uint64)
      ensures j == Prev(i)
    {
      RingIsArithmetic(i, 1);
      j := Sub64(i, 1);
    }

    /** end - start + 1 on int64. */
    method Count(start: uint64, end: uint64) returns (n: int)
      ensures n == Int64(Next(Distance(start, end)))
    {
      RingIsArithmetic(start, end);
      RingIsArithmetic(Distance(start, end), 1);
      n := Int64(Add64(Sub64(end, start), 1));
    }

    /** The length comes back as an int64. */
    method Llpush(k: bytes, v: bytes) returns (n: Option<int>)
      requires Stored(kv, k)
      modifies this
      ensures Stored(kv, k) && OnlyTouches(old(kv), kv, k)
      ensures n.Some? <==> |ListOf(old(kv), k)| < MAX
      ensures ListOf(kv, k) == if n.Some? then [v] + ListOf(old(kv), k) else ListOf(old(kv), k)
      ensures n.Some? ==> n.value == Int64(|ListOf(kv, k)|)
    {
      var (start, end) := Bounds(kv, k);
      var first := Before(start);
      if first == end {
        return None;
      }
      PushedLeft(kv, k, v);
      TouchedOne(kv, k, first, v, first, end);
      kv := kv[EListKey(k, first) := v];
      kv := kv[EListMetaKey(k) := EListMetaValue(first, end)];
      var size := Count(start, end);
      n := Some(size);
    }

    method Lrpush(k: bytes, v: bytes) returns (n: Option<int>)
      requires Stored(kv, k)
      modifies this
      ensures Stored(kv, k) && OnlyTouches(old(kv), kv, k)
      ensures n.Some? <==> |ListOf(old(kv), k)| < MAX
      ensures ListOf(kv, k) == if n.Some? then ListOf(old(kv), k) + [v] else ListOf(old(kv), k)
      ensures n.Some? ==> n.value == Int64(|ListOf(kv, k)|)
    {
      var (start, end) := Bounds(kv, k);
      var last := After(end);
      if start == last {
        return None;
      }
      PushedRight(kv, k, v);
      TouchedOne(kv, k, end, v, start, last);
      kv := kv[EListKey(k, end) := v];
      kv := kv[EListMetaKey(k) := EListMetaValue(start, last)];
      var size := Count(start, end);
      n := Some(size);
    }

    method Llpop(k: bytes) returns (v: Option<bytes>)
      requires Stored(kv, k)
      modifies this
      ensures Stored(kv, k) && OnlyTouches(old(kv), kv, k)
      ensures v == if ListOf(old(kv), k) == [] then None else Some(ListOf(old(kv), k)[0])
      ensures ListOf(kv, k) == if v.Some? then ListOf(old(kv), k)[1..] else ListOf(old(kv), k)
    {
      var (start, end) := Bounds(kv, k);
      if EListMetaKey(k) !in kv || start == end {
        return None;
      }
      var next := After(start);
      PoppedLeft(kv, k);
      TouchedOne(kv, k, 0, [], next, end);
      v := Some(kv[EListKey(k, start)]);
      kv := kv[EListMetaKey(k) := EListMetaValue(next, end)];
    }

    method Lrpop(k: bytes) returns (v: Option<bytes>)
      requires Stored(kv, k)
      modifies this
      ensures Stored(kv, k) && OnlyTouches(old(kv), kv, k)
      ensures var xs := ListOf(old(kv), k);
              && v == (if xs == [] then None else Some(xs[|xs| - 1]))
              && ListOf(kv, k) == if xs == [] then xs else xs[..|xs| - 1]
    {
      var (start, end) := Bounds(kv, k);
      if EListMetaKey(k) !in kv || start == end {
        return None;
      }
      var last := Before(end);
      PoppedRight(kv, k);
      TouchedOne(kv, k, 0, [], start, last);
      v := Some(kv[EListKey(k, last)]);
      kv := kv[EListMetaKey(k) := EListMetaValue(start, last)];
    }
  }
}
