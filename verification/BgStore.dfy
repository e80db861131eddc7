/** The maps of until/store/bg/bg.go: a map of maps kept in one flat, ordered key space. */
module BgStore {
  import opened Bytes
  import opened Options

  type KV = map<bytes, bytes>

  const M: byte := 109     // 'm'
  const PLUS: byte := 43   // '+'

  /** 'm', the length of the map's name, the name, '+', the key. */
  function EMapKey(m: bytes, k: bytes): bytes {
    [M] + Put32(|m|) + m + [PLUS] + k
  }

  /** The key that a flat key holds. */
  function DMapKey(buf: bytes): bytes
    requires |buf| >= 5
  {
    var n := FromLittleEndian(buf[1..5]);
    if 6 + n <= |buf| then buf[6 + n..] else []
  }

  /** For instance, key "b" of map "a". */
  lemma MapKeyBytes()
    ensures EMapKey([97], [98]) == [109, 1, 0, 0, 0, 97, 43, 98]
  {
  }

  predicate HasPrefix(buf: bytes, p: bytes) {
    |p| <= |buf| && buf[..|p|] == p
  }

  // ---------------------------------------------------------------- the keys of one map

  function Head(m: bytes): (r: bytes)
    ensures |r| == 6 + |m|
  {
    [M] + Put32(|m|) + m + [PLUS]
  }

  lemma KeyParts(m: bytes, k: bytes)
    requires |m| < TWO_32
    ensures EMapKey(m, k) == Head(m) + k && |EMapKey(m, k)| == 6 + |m| + |k|
    ensures FromLittleEndian(EMapKey(m, k)[1..5]) == |m|
    ensures EMapKey(m, k)[5..5 + |m|] == m
    ensures DMapKey(EMapKey(m, k)) == k
  {
    var e := EMapKey(m, k);
    assert e[1..5] == Put32(|m|);
    Put32RoundTrip(|m|);
    assert e[5..5 + |m|] == m;
    assert e[6 + |m|..] == k;
  }

  /** Different names or different keys have different flat keys; */
  lemma EMapKeyInjective(m: bytes, k: bytes, m1: bytes, k1: bytes)
    requires |m| < TWO_32 && |m1| < TWO_32
    ensures EMapKey(m, k) == EMapKey(m1, k1) <==> m == m1 && k == k1
  {
    KeyParts(m, k);
    KeyParts(m1, k1);
  }

  /** and the flat keys under the prefix of a map are those of that map alone. */
  lemma PrefixIsOneMap(m: bytes, m1: bytes, k1: bytes)
    requires |m| < TWO_32 && |m1| < TWO_32
    ensures HasPrefix(EMapKey(m1, k1), EMapKey(m, [])) <==> m == m1
  {
    KeyParts(m, []);
    KeyParts(m1, k1);
    var e, p := EMapKey(m1, k1), EMapKey(m, []);
    if HasPrefix(e, p) {
      assert e[1..5] == e[..|p|][1..5] == p[1..5];
      assert e[5..5 + |m|] == e[..|p|][5..5 + |m|] == p[5..5 + |m|];
    }
    if m == m1 {
      assert e[..|p|] == Head(m);
    }
  }

  lemma PrefixedKeyIs(m: bytes, buf: bytes)
    requires |m| < TWO_32 && HasPrefix(buf, EMapKey(m, []))
    ensures |buf| >= 6 + |m| && buf == EMapKey(m, DMapKey(buf))
  {
    KeyParts(m, []);
    var p := EMapKey(m, []);
    assert buf[1..5] == buf[..|p|][1..5] == p[1..5];
    assert buf == buf[..|p|] + buf[|p|..];
    assert DMapKey(buf) == buf[6 + |m|..];
    assert EMapKey(m, DMapKey(buf)) == p + DMapKey(buf);
  }

  // ---------------------------------------------------------------- what the store means

  ghost function KeysOf(kv: KV, m: bytes): set<bytes> {
    set buf | buf in kv && HasPrefix(buf, EMapKey(m, [])) && |buf| >= 5 :: DMapKey(buf)
  }

  lemma KeysOfIs(kv: KV, m: bytes, k: bytes)
    requires |m| < TWO_32
    ensures k in KeysOf(kv, m) <==> EMapKey(m, k) in kv
  {
    KeyParts(m, k);
    PrefixIsOneMap(m, m, k);
    if k in KeysOf(kv, m) {
      var buf :| buf in kv && HasPrefix(buf, EMapKey(m, [])) && |buf| >= 5 && k == DMapKey(buf);
      PrefixedKeyIs(m, buf);
    }
  }

  /** The map of the given name. */
  ghost function MapOf(kv: KV, m: bytes): KV
    requires |m| < TWO_32
  {
    map k | k in KeysOf(kv, m) && EMapKey(m, k) in kv :: kv[EMapKey(m, k)]
  }

  lemma MapOfAt(kv: KV, m: bytes, k: bytes)
    requires |m| < TWO_32
    ensures k in MapOf(kv, m) <==> EMapKey(m, k) in kv
    ensures k in MapOf(kv, m) ==> MapOf(kv, m)[k] == kv[EMapKey(m, k)]
  {
    KeysOfIs(kv, m, k);
  }

  /** Writing one flat key changes one map at one key, and no other. */
  lemma MapOfSet(kv: KV, m: bytes, k: bytes, v: bytes, m1: bytes)
    requires |m| < TWO_32 && |m1| < TWO_32
    ensures MapOf(kv[EMapKey(m, k) := v], m1) == if m == m1 then MapOf(kv, m)[k := v] else MapOf(kv, m1)
  {
    var now := kv[EMapKey(m, k) := v];
    forall x ensures x in MapOf(now, m1) <==> x in MapOf(kv, m1) || (m == m1 && x == k)
      ensures x in MapOf(now, m1) ==> MapOf(now, m1)[x] == if m == m1 && x == k then v else MapOf(kv, m1)[x]
    {
      EMapKeyInjective(m, k, m1, x);
      MapOfAt(kv, m1, x);
      MapOfAt(now, m1, x);
    }
  }

  lemma MapOfRemoved(kv: KV, m: bytes, k: bytes, m1: bytes)
    requires |m| < TWO_32 && |m1| < TWO_32
    ensures MapOf(kv - {EMapKey(m, k)}, m1) == if m == m1 then MapOf(kv, m) - {k} else MapOf(kv, m1)
  {
    var now := kv - {EMapKey(m, k)};
    forall x ensures x in MapOf(now, m1) <==> x in MapOf(kv, m1) && !(m == m1 && x == k)
      ensures x in MapOf(now, m1) ==> MapOf(now, m1)[x] == MapOf(kv, m1)[x]
    {
      EMapKeyInjective(m, k, m1, x);
      MapOfAt(kv, m1, x);
      MapOfAt(now, m1, x);
    }
  }

  /** The other maps, and whatever else is in the store, are as before. */
  ghost predicate OthersKept(before: KV, after: KV, m: bytes) {
    && (forall m1: bytes :: |m1| < TWO_32 && m1 != m ==> MapOf(after, m1) == MapOf(before, m1))
    && (forall buf :: !HasPrefix(buf, EMapKey(m, [])) ==>
          (buf in after <==> buf in before) && (buf in after ==> after[buf] == before[buf]))
  }

  lemma OneKeyChanged(before: KV, after: KV, m: bytes, buf: bytes)
    requires HasPrefix(buf, EMapKey(m, []))
    requires forall b :: b != buf ==> (b in after <==> b in before) && (b in after ==> after[b] == before[b])
    requires forall m1: bytes :: |m1| < TWO_32 && m1 != m ==> MapOf(after, m1) == MapOf(before, m1)
    ensures OthersKept(before, after, m)
  {
  }

  lemma SetKeepsOthers(kv: KV, m: bytes, k: bytes, v: bytes)
    requires |m| < TWO_32
    ensures MapOf(kv[EMapKey(m, k) := v], m) == MapOf(kv, m)[k := v]
    ensures OthersKept(kv, kv[EMapKey(m, k) := v], m)
  {
    var buf := EMapKey(m, k);
    MapOfSet(kv, m, k, v, m);
    PrefixIsOneMap(m, m, k);
    forall m1: bytes | |m1| < TWO_32 && m1 != m ensures MapOf(kv[buf := v], m1) == MapOf(kv, m1) {
      MapOfSet(kv, m, k, v, m1);
    }
    OneKeyChanged(kv, kv[buf := v], m, buf);
  }

  lemma RemovalKeepsOthers(kv: KV, m: bytes, k: bytes)
    requires |m| < TWO_32
    ensures MapOf(kv - {EMapKey(m, k)}, m) == MapOf(kv, m) - {k}
    ensures OthersKept(kv, kv - {EMapKey(m, k)}, m)
  {
    var buf := EMapKey(m, k);
    MapOfRemoved(kv, m, k, m);
    PrefixIsOneMap(m, m, k);
    forall m1: bytes | |m1| < TWO_32 && m1 != m ensures MapOf(kv - {buf}, m1) == MapOf(kv, m1) {
      MapOfRemoved(kv, m, k, m1);
    }
    OneKeyChanged(kv, kv - {buf}, m, buf);
  }

  // ---------------------------------------------------------------- the order of the keys

  lemma {:induction false} BeforePrefix(p: bytes, a: bytes, b: bytes)
    ensures Before(p + a, p + b) <==> Before(a, b)
    decreases |p|
  {
    if p == [] {
      assert p + a == a && p + b == b;
    } else {
      assert (p + a)[1..] == p[1..] + a && (p + b)[1..] == p[1..] + b;
      BeforePrefix(p[1..], a, b);
    }
  }

  /** What the iterator with this prefix delivers: every key once, in order. */
  ghost predicate Iterates(kv: KV, p: bytes, items: seq<bytes>) {
    && (forall buf :: buf in items <==> buf in kv && HasPrefix(buf, p))
    && Ascending(items)
  }

  ghost predicate Ascending(items: seq<bytes>) {
    forall i, j :: 0 <= i < j < |items| ==> Before(items[i], items[j])
  }

  lemma KeysInOrder(m: bytes, items: seq<bytes>, ks: seq<bytes>)
    requires |m| < TWO_32 && Ascending(items) && |ks| == |items|
    requires forall i :: 0 <= i < |items| ==> items[i] == EMapKey(m, ks[i])
    ensures Ascending(ks)
  {
    forall i, j | 0 <= i < j < |ks| ensures Before(ks[i], ks[j]) {
      KeyParts(m, ks[i]);
      KeyParts(m, ks[j]);
      BeforePrefix(Head(m), ks[i], ks[j]);
    }
  }

  /** The decoded keys of an iteration are the keys of the map. */
  lemma KeysAreAll(kv: KV, m: bytes, items: seq<bytes>, ks: seq<bytes>)
    requires |m| < TWO_32 && Iterates(kv, EMapKey(m, []), items) && |ks| == |items|
    requires forall i :: 0 <= i < |items| ==> items[i] == EMapKey(m, ks[i])
    ensures forall k :: k in ks <==> k in MapOf(kv, m)
  {
    forall k ensures k in ks <==> k in MapOf(kv, m) {
      MapOfAt(kv, m, k);
      PrefixIsOneMap(m, m, k);
      if k in ks {
        var i :| 0 <= i < |ks| && ks[i] == k;
        assert items[i] in items;
      }
      if EMapKey(m, k) in items {
        var i :| 0 <= i < |items| && items[i] == EMapKey(m, k);
        EMapKeyInjective(m, k, m, ks[i]);
      }
    }
  }

  // ---------------------------------------------------------------- the Go form

  /** A store transaction. */
  class Txn {
    var kv: KV

    constructor (kv: KV)
      ensures this.kv == kv
    {
      this.kv := kv;
    }

    method Mset(m: bytes, k: bytes, v: bytes)
      requires |m| < TWO_32
      modifies this
      ensures MapOf(kv, m) == MapOf(old(kv), m)[k := v]
      ensures OthersKept(old(kv), kv, m)
    {
      kv := kv[EMapKey(m, k) := v];
      SetKeepsOthers(old(kv), m, k, v);
    }

    method Mdel(m: bytes, k: bytes)
      requires |m| < TWO_32
      modifies this
      ensures MapOf(kv, m) == MapOf(old(kv), m) - {k}
      ensures OthersKept(old(kv), kv, m)
    {
      kv := kv - {EMapKey(m, k)};
      RemovalKeepsOthers(old(kv), m, k);
    }

    /** None is the error for a key that does not exist. */
    method Mget(m: bytes, k: bytes) returns (v: Option<bytes>)
      requires |m| < TWO_32
      ensures v == if k in MapOf(kv, m) then Some(MapOf(kv, m)[k]) else None
    {
      MapOfAt(kv, m, k);
      var buf := EMapKey(m, k);
      return if buf in kv then Some(kv[buf]) else None;
    }

    /** The keys of a map in order; items are what the iterator delivers. */
    method Mkeys(m: bytes, items: seq<bytes>) returns (ks: seq<bytes>)
      requires |m| < TWO_32 && Iterates(kv, EMapKey(m, []), items)
      ensures Ascending(ks) && forall k :: k in ks <==> k in MapOf(kv, m)
    {
      ks := [];
      for i := 0 to |items|
        invariant |ks| == i && forall j :: 0 <= j < i ==> items[j] == EMapKey(m, ks[j])
      {
        assert items[i] in items;
        PrefixedKeyIs(m, items[i]);
        ks := ks + [DMapKey(items[i])];
      }
      KeysInOrder(m, items, ks);
      KeysAreAll(kv, m, items, ks);
    }

    method Mkvs(m: bytes, items: seq<bytes>) returns (ks: seq<bytes>, vs: seq<bytes>)
      requires |m| < TWO_32 && Iterates(kv, EMapKey(m, []), items)
      ensures Ascending(ks) && forall k :: k in ks <==> k in MapOf(kv, m)
      ensures |vs| == |ks| && forall i :: 0 <= i < |ks| ==> vs[i] == MapOf(kv, m)[ks[i]]
    {
      ks, vs := [], [];
      for i := 0 to |items|
        invariant |ks| == |vs| == i && forall j :: 0 <= j < i ==> items[j] == EMapKey(m, ks[j])
        invariant forall j :: 0 <= j < i ==> items[j] in kv && vs[j] == kv[items[j]]
      {
        assert items[i] in items;
        PrefixedKeyIs(m, items[i]);
        ks, vs := ks + [DMapKey(items[i])], vs + [kv[items[i]]];
      }
      KeysInOrder(m, items, ks);
      KeysAreAll(kv, m, items, ks);
      forall i | 0 <= i < |ks| ensures vs[i] == MapOf(kv, m)[ks[i]] {
        MapOfAt(kv, m, ks[i]);
      }
    }

    /** Empties one map and touches nothing else. */
    method Mclear(m: bytes, items: seq<bytes>)
      requires |m| < TWO_32 && Iterates(kv, EMapKey(m, []), items)
      modifies this
      ensures MapOf(kv, m) == map[]
      ensures OthersKept(old(kv), kv, m)
    {
      for i := 0 to |items|
        invariant forall buf :: buf in kv <==> buf in old(kv) && buf !in items[..i]
        invariant forall buf :: buf in kv ==> kv[buf] == old(kv)[buf]
      {
        kv := kv - {items[i]};
        assert items[..i + 1] == items[..i] + [items[i]];
      }
      assert items[..|items|] == items;
      Cleared(old(kv), kv, m);
    }
  }

  lemma Cleared(before: KV, after: KV, m: bytes)
    requires |m| < TWO_32
    requires forall buf :: buf in after <==> buf in before && !HasPrefix(buf, EMapKey(m, []))
    requires forall buf :: buf in after ==> after[buf] == before[buf]
    ensures MapOf(after, m) == map[] && OthersKept(before, after, m)
  {
    forall k ensures k !in MapOf(after, m) {
      MapOfAt(after, m, k);
      PrefixIsOneMap(m, m, k);
    }
    forall m1: bytes | |m1| < TWO_32 && m1 != m ensures MapOf(after, m1) == MapOf(before, m1) {
      forall k ensures k in MapOf(after, m1) <==> k in MapOf(before, m1)
        ensures k in MapOf(after, m1) ==> MapOf(after, m1)[k] == MapOf(before, m1)[k]
      {
        MapOfAt(after, m1, k);
        MapOfAt(before, m1, k);
        PrefixIsOneMap(m, m1, k);
      }
    }
  }
}
