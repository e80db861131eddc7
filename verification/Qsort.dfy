/** The work-list quicksort, filter and binary search of until/slice/slice.go, for any
    element type with a total order `le` (typeclass.Ord: Lt is its strict part, Ge its
    converse). */
module Qsort {

  ghost predicate TotalOrder<T(!new)>(le: (T, T) -> bool) {
    && (forall a, b :: le(a, b) || le(b, a))
    && (forall a, b, c :: le(a, b) && le(b, c) ==> le(a, c))
  }

  ghost predicate Sorted<T>(le: (T, T) -> bool, s: seq<T>) {
    forall i, j :: 0 <= i < j < |s| ==> le(s[i], s[j])
  }

  function Filtered<T>(f: T -> bool, xs: seq<T>): seq<T> {
    if xs == [] then [] else (if f(xs[0]) then [xs[0]] else []) + Filtered(f, xs[1..])
  }

  method Filter<T>(f: T -> bool, xs: seq<T>) returns (rs: seq<T>)
    ensures rs == Filtered(f, xs)
  {
    rs := [];
    var rest := xs;
    while rest != []
      invariant Filtered(f, xs) == rs + Filtered(f, rest)
      decreases |rest|
    {
      FilteredHead(f, rs, rest);
      if f(rest[0]) {
        rs := rs + [rest[0]];
      }
      rest := rest[1..];
    }
  }

  lemma FilteredHead<T>(f: T -> bool, rs: seq<T>, rest: seq<T>)
    requires rest != []
    ensures rs + Filtered(f, rest) == (if f(rest[0]) then rs + [rest[0]] else rs) + Filtered(f, rest[1..])
  {
  }

  lemma {:induction false} FilteredPass<T>(f: T -> bool, xs: seq<T>)
    ensures forall i :: 0 <= i < |Filtered(f, xs)| ==> f(Filtered(f, xs)[i])
  {
    if xs != [] {
      FilteredPass(f, xs[1..]);
    }
  }

  /** A filter and the opposite filter split the elements between them. */
  lemma {:induction false} FilteredSplit<T>(f: T -> bool, g: T -> bool, xs: seq<T>)
    requires forall i :: 0 <= i < |xs| ==> f(xs[i]) != g(xs[i])
    ensures multiset(Filtered(f, xs)) + multiset(Filtered(g, xs)) == multiset(xs)
  {
    if xs != [] {
      FilteredSplit(f, g, xs[1..]);
      assert xs == [xs[0]] + xs[1..];
    }
  }

  // ---------------------------------------------------------------- one partition step

  /** ls and rs are the elements of s[x+1..y+1] below s[x] and not below it. */
  ghost predicate IsSplit<T>(le: (T, T) -> bool, s: seq<T>, x: nat, y: nat, ls: seq<T>, rs: seq<T>)
    requires x < y < |s|
  {
    && |ls| + |rs| == y - x
    && multiset(ls) + multiset(rs) == multiset(s[x + 1..y + 1])
    && (forall i :: 0 <= i < |ls| ==> !le(s[x], ls[i]))
    && (forall i :: 0 <= i < |rs| ==> le(s[x], rs[i]))
  }

  /** The array after the range x..y has been rewritten around its first element. */
  function Partitioned<T>(s: seq<T>, x: nat, y: nat, ls: seq<T>, rs: seq<T>): seq<T>
    requires x < y < |s|
  {
    s[..x] + (ls + [s[x]] + rs) + s[y + 1..]
  }

  lemma ConcatMultisets<T>(a: seq<T>, b: seq<T>, c: seq<T>)
    ensures multiset(a + b + c) == multiset(a) + multiset(b) + multiset(c)
  {
  }

  /** curry.Lt(z) and curry.Ge(z). */
  function Lt<T>(le: (T, T) -> bool, z: T): T -> bool {
    v => !le(z, v)
  }

  function Ge<T>(le: (T, T) -> bool, z: T): T -> bool {
    v => le(z, v)
  }

  lemma FilterSplits<T>(le: (T, T) -> bool, s: seq<T>, x: nat, y: nat)
    requires x < y < |s|
    ensures var mid := s[x + 1..y + 1];
            IsSplit(le, s, x, y, Filtered(Lt(le, s[x]), mid), Filtered(Ge(le, s[x]), mid))
  {
    var f, g := Lt(le, s[x]), Ge(le, s[x]);
    var mid := s[x + 1..y + 1];
    FilteredSplit(f, g, mid);
    FilteredPass(f, mid);
    FilteredPass(g, mid);
    SizesAdd(Filtered(f, mid), Filtered(g, mid), mid);
  }

  lemma SizesAdd<T>(a: seq<T>, b: seq<T>, c: seq<T>)
    requires multiset(a) + multiset(b) == multiset(c)
    ensures |a| + |b| == |c|
  {
    assert |multiset(a) + multiset(b)| == |multiset(c)|;
  }

  lemma RangeMultiset<T>(le: (T, T) -> bool, s: seq<T>, x: nat, y: nat, ls: seq<T>, rs: seq<T>)
    requires x < y < |s| && IsSplit(le, s, x, y, ls, rs)
    ensures multiset(ls + [s[x]] + rs) == multiset(s[x..y + 1])
  {
    ConcatMultisets(ls, [s[x]], rs);
    assert s[x..y + 1] == [s[x]] + s[x + 1..y + 1];
  }

  lemma PartitionPermutes<T>(le: (T, T) -> bool, s: seq<T>, x: nat, y: nat, ls: seq<T>, rs: seq<T>)
    requires x < y < |s| && IsSplit(le, s, x, y, ls, rs)
    ensures multiset(Partitioned(s, x, y, ls, rs)) == multiset(s)
  {
    RangeMultiset(le, s, x, y, ls, rs);
    ConcatMultisets(s[..x], ls + [s[x]] + rs, s[y + 1..]);
    ConcatMultisets(s[..x], s[x..y + 1], s[y + 1..]);
    assert s == s[..x] + s[x..y + 1] + s[y + 1..];
  }

  /** Where the partition puts things: smaller elements, the pivot, the others. */
  lemma PartitionPlaces<T>(le: (T, T) -> bool, s: seq<T>, x: nat, y: nat, ls: seq<T>, rs: seq<T>)
    requires x < y < |s| && IsSplit(le, s, x, y, ls, rs)
    ensures var p, t := x + |ls|, Partitioned(s, x, y, ls, rs);
            && |t| == |s| && t[p] == s[x]
            && (forall i :: x <= i < p ==> !le(s[x], t[i]))
            && (forall i :: p < i <= y ==> le(s[x], t[i]))
            && (forall i :: 0 <= i < |s| && (i < x || y < i) ==> t[i] == s[i])
  {
    var p, t := x + |ls|, Partitioned(s, x, y, ls, rs);
    assert forall i :: x <= i < p ==> t[i] == ls[i - x];
    assert forall i :: p < i <= y ==> t[i] == rs[i - p - 1];
  }

  lemma PartitionedAt<T>(s: seq<T>, x: nat, y: nat, ls: seq<T>, rs: seq<T>, t: seq<T>)
    requires x < y < |s| && |ls| + |rs| == y - x && |t| == |s|
    requires forall i :: x <= i < x + |ls| ==> t[i] == ls[i - x]
    requires t[x + |ls|] == s[x]
    requires forall i :: x + |ls| < i <= y ==> t[i] == rs[i - x - |ls| - 1]
    requires forall i :: 0 <= i < |s| && (i < x || y < i) ==> t[i] == s[i]
    ensures t == Partitioned(s, x, y, ls, rs)
  {
  }

  /** An element of the rewritten range was somewhere in that range before. */
  lemma PartitionOrigin<T>(le: (T, T) -> bool, s: seq<T>, x: nat, y: nat, ls: seq<T>, rs: seq<T>, i: nat)
    returns (k: nat)
    requires x < y < |s| && IsSplit(le, s, x, y, ls, rs)
    requires x <= i <= y
    ensures x <= k <= y && |Partitioned(s, x, y, ls, rs)| == |s| && s[k] == Partitioned(s, x, y, ls, rs)[i]
  {
    RangeMultiset(le, s, x, y, ls, rs);
    var part := ls + [s[x]] + rs;
    var v := part[i - x];
    assert Partitioned(s, x, y, ls, rs)[i] == v;
    assert v in multiset(s[x..y + 1]);
    var j :| 0 <= j < |s[x..y + 1]| && s[x..y + 1][j] == v;
    k := x + j;
  }

  // ---------------------------------------------------------------- the work list

  datatype Range = Range(x: int, y: int)

  ghost predicate ValidRanges(n: nat, qs: seq<Range>) {
    && (forall a :: 0 <= a < |qs| ==> 0 <= qs[a].x <= qs[a].y + 1 <= n)
    && (forall a, b :: 0 <= a < b < |qs| ==> qs[a].y < qs[b].x || qs[b].y < qs[a].x)
  }

  ghost predicate SameRange(qs: seq<Range>, i: int, j: int) {
    exists a :: 0 <= a < |qs| && qs[a].x <= i && j <= qs[a].y
  }

  /** Two elements that no pending range still holds together are in order. */
  ghost predicate SettledOutside<T>(le: (T, T) -> bool, s: seq<T>, qs: seq<Range>) {
    forall i, j :: 0 <= i < j < |s| ==> SameRange(qs, i, j) || le(s[i], s[j])
  }

  function Work(qs: seq<Range>): nat
    requires forall a :: 0 <= a < |qs| ==> qs[a].x <= qs[a].y + 1
  {
    if qs == [] then 0 else 2 * (qs[0].y + 1 - qs[0].x) + 1 + Work(qs[1..])
  }

  lemma {:induction false} WorkAppend(qs: seq<Range>, r: Range)
    requires forall a :: 0 <= a < |qs| ==> qs[a].x <= qs[a].y + 1
    requires r.x <= r.y + 1
    ensures Work(qs + [r]) == Work(qs) + 2 * (r.y + 1 - r.x) + 1
  {
    if qs != [] {
      WorkAppend(qs[1..], r);
      assert (qs + [r])[1..] == qs[1..] + [r];
    }
  }

  /** The ranges queued by a partition with `l` elements below the pivot. */
  function Queued(qs: seq<Range>, l: nat): seq<Range>
    requires qs != []
  {
    var x, y := qs[0].x, qs[0].y;
    qs + (if l != 0 then [Range(x, x + l - 1)] else [])
       + (if x + l != y then [Range(x + l + 1, y)] else [])
  }

  lemma QueuedIsValid(n: nat, qs: seq<Range>, l: nat)
    requires qs != [] && ValidRanges(n, qs) && qs[0].x + l <= qs[0].y
    ensures ValidRanges(n, Queued(qs, l)[1..])
  {
    var x, y := qs[0].x, qs[0].y;
    var q := Queued(qs, l)[1..];
    assert forall a :: 0 <= a < |qs| - 1 ==> q[a] == qs[a + 1];
    assert forall a :: |qs| - 1 <= a < |q| ==> x <= q[a].x && q[a].y <= y;
  }

  lemma QueuedIsLess(n: nat, qs: seq<Range>, l: nat)
    requires qs != [] && ValidRanges(n, qs) && qs[0].x + l <= qs[0].y
    ensures ValidRanges(n, Queued(qs, l)[1..])
    ensures Work(Queued(qs, l)[1..]) < Work(qs)
  {
    QueuedIsValid(n, qs, l);
    var x, y := qs[0].x, qs[0].y;
    var rest := qs[1..];
    var lower := if l != 0 then [Range(x, x + l - 1)] else [];
    var upper := if x + l != y then [Range(x + l + 1, y)] else [];
    assert Queued(qs, l)[1..] == rest + lower + upper;
    if l != 0 {
      WorkAppend(rest, Range(x, x + l - 1));
    } else {
      assert rest + lower == rest;
    }
    if x + l != y {
      WorkAppend(rest + lower, Range(x + l + 1, y));
    } else {
      assert rest + lower + upper == rest + lower;
    }
  }

  lemma StillSame(qs: seq<Range>, l: nat, i: int, j: int)
    requires qs != [] && qs[0].x + l <= qs[0].y
    requires SameRange(qs[1..], i, j) || (qs[0].x <= i < j < qs[0].x + l) || (qs[0].x + l < i < j <= qs[0].y)
    ensures SameRange(Queued(qs, l)[1..], i, j)
  {
    var q := Queued(qs, l)[1..];
    var x, y := qs[0].x, qs[0].y;
    if SameRange(qs[1..], i, j) {
      var a :| 0 <= a < |qs[1..]| && qs[1..][a].x <= i && j <= qs[1..][a].y;
      assert q[a] == qs[1..][a];
    } else if j < x + l {
      assert q[|qs| - 1] == Range(x, x + l - 1);
    } else {
      assert q[|q| - 1] == Range(x + l + 1, y);
    }
  }

  lemma NotTogether(n: nat, qs: seq<Range>, i: int, j: int)
    requires qs != [] && ValidRanges(n, qs) && i < j
    requires (i < qs[0].x <= j <= qs[0].y) || (qs[0].x <= i <= qs[0].y < j)
    ensures !SameRange(qs, i, j)
  {
  }

  lemma SettledPair<T(!new)>(le: (T, T) -> bool, s: seq<T>, qs: seq<Range>, ls: seq<T>, rs: seq<T>, i: nat, j: nat)
    requires TotalOrder(le)
    requires qs != [] && ValidRanges(|s|, qs) && qs[0].x < qs[0].y
    requires IsSplit(le, s, qs[0].x, qs[0].y, ls, rs)
    requires SettledOutside(le, s, qs)
    requires i < j < |s|
    ensures var t := Partitioned(s, qs[0].x, qs[0].y, ls, rs);
            |t| == |s| && (SameRange(Queued(qs, |ls|)[1..], i, j) || le(t[i], t[j]))
  {
    var x, y := qs[0].x, qs[0].y;
    PartitionPlaces(le, s, x, y, ls, rs);
    var t := Partitioned(s, x, y, ls, rs);
    if x <= i && j <= y {
      if j < x + |ls| || x + |ls| < i {
        StillSame(qs, |ls|, i, j);
      } else {
        assert le(t[i], s[x]) && le(s[x], t[j]);
      }
    } else if x <= i <= y {
      var k := PartitionOrigin(le, s, x, y, ls, rs, i);
      NotTogether(|s|, qs, k, j);
    } else if x <= j <= y {
      var k := PartitionOrigin(le, s, x, y, ls, rs, j);
      NotTogether(|s|, qs, i, k);
    } else if SameRange(qs, i, j) {
      var a :| 0 <= a < |qs| && qs[a].x <= i && j <= qs[a].y;
      assert a > 0 && qs[1..][a - 1] == qs[a];
      StillSame(qs, |ls|, i, j);
    }
  }

  /** Partitioning the first pending range keeps everything outside the pending ranges in order. */
  lemma PartitionSettles<T(!new)>(le: (T, T) -> bool, s: seq<T>, qs: seq<Range>, ls: seq<T>, rs: seq<T>)
    requires TotalOrder(le)
    requires qs != [] && ValidRanges(|s|, qs) && qs[0].x < qs[0].y
    requires IsSplit(le, s, qs[0].x, qs[0].y, ls, rs)
    requires SettledOutside(le, s, qs)
    ensures SettledOutside(le, Partitioned(s, qs[0].x, qs[0].y, ls, rs), Queued(qs, |ls|)[1..])
  {
    var t := Partitioned(s, qs[0].x, qs[0].y, ls, rs);
    PartitionPlaces(le, s, qs[0].x, qs[0].y, ls, rs);
    forall i, j | 0 <= i < j < |t|
      ensures SameRange(Queued(qs, |ls|)[1..], i, j) || le(t[i], t[j])
    {
      SettledPair(le, s, qs, ls, rs, i, j);
    }
  }

  // ---------------------------------------------------------------- the program

  method Copy<T>(ys: array<T>, at: nat, from: seq<T>)
    requires at + |from| <= ys.Length
    modifies ys
    ensures forall i :: 0 <= i < ys.Length ==>
              ys[i] == if at <= i < at + |from| then from[i - at] else old(ys[i])
  {
    for k := 0 to |from|
      invariant forall i :: 0 <= i < ys.Length ==>
                  ys[i] == if at <= i < at + k then from[i - at] else old(ys[i])
    {
      ys[at + k] := from[k];
    }
  }

  method WriteBack<T>(ys: array<T>, x: nat, y: nat, ls: seq<T>, rs: seq<T>)
    requires x < y < ys.Length && |ls| + |rs| == y - x
    modifies ys
    ensures ys[..] == Partitioned(old(ys[..]), x, y, ls, rs)
  {
    ghost var s := ys[..];
    var z := ys[x];
    if |ls| != 0 {
      Copy(ys, x, ls);
    }
    if |rs| != 0 {
      Copy(ys, x + |ls| + 1, rs);
    }
    ys[x + |ls|] := z;
    PartitionedAt(s, x, y, ls, rs, ys[..]);
  }

  /** The body of the loop for a range of two elements or more: filter twice and write back. */
  method Partition<T>(le: (T, T) -> bool, ys: array<T>, x: nat, y: nat) returns (ls: seq<T>, rs: seq<T>)
    requires x < y < ys.Length
    modifies ys
    ensures IsSplit(le, old(ys[..]), x, y, ls, rs)
    ensures ys[..] == Partitioned(old(ys[..]), x, y, ls, rs)
  {
    ghost var s := ys[..];
    var z := ys[x];
    var part := ys[x + 1..y + 1];
    assert part == s[x + 1..y + 1] && z == s[x];
    ls := Filter(Lt(le, z), part);
    rs := Filter(Ge(le, z), part);
    assert IsSplit(le, s, x, y, ls, rs) by {
      FilterSplits(le, s, x, y);
    }
    WriteBack(ys, x, y, ls, rs);
  }

  method Enqueue(qs: seq<Range>, l: nat, r: nat) returns (queue: seq<Range>)
    requires qs != [] && qs[0].x + l + r == qs[0].y
    ensures queue == Queued(qs, l)
  {
    var x, y := qs[0].x, qs[0].y;
    queue := qs;
    if l != 0 {
      queue := queue + [Range(x, x + l - 1)];
    }
    if r != 0 {
      queue := queue + [Range(x + l + 1, y)];
    }
  }

  lemma RoundDone<T(!new)>(le: (T, T) -> bool, s: seq<T>, qs: seq<Range>, ls: seq<T>, rs: seq<T>)
    requires TotalOrder(le)
    requires qs != [] && ValidRanges(|s|, qs) && qs[0].x < qs[0].y
    requires IsSplit(le, s, qs[0].x, qs[0].y, ls, rs)
    requires SettledOutside(le, s, qs)
    ensures var t, queue := Partitioned(s, qs[0].x, qs[0].y, ls, rs), Queued(qs, |ls|)[1..];
            && |t| == |s| && multiset(t) == multiset(s)
            && ValidRanges(|s|, queue) && SettledOutside(le, t, queue) && Work(queue) < Work(qs)
  {
    PartitionSettles(le, s, qs, ls, rs);
    PartitionPermutes(le, s, qs[0].x, qs[0].y, ls, rs);
    QueuedIsLess(|s|, qs, |ls|);
  }

  /** Where the loop stands: the elements of all, in order but within the ranges still to be done. */
  ghost predicate Pending<T(!new)>(le: (T, T) -> bool, all: seq<T>, s: seq<T>, qs: seq<Range>) {
    multiset(s) == multiset(all) && ValidRanges(|s|, qs) && SettledOutside(le, s, qs)
  }

  /** One turn of the loop: the first range of the list is partitioned, if it is long enough. */
  method Round<T(!new)>(le: (T, T) -> bool, ys: array<T>, qs: seq<Range>, ghost all: seq<T>)
    returns (queue: seq<Range>)
    requires TotalOrder(le) && qs != [] && Pending(le, all, ys[..], qs)
    modifies ys
    ensures Pending(le, all, ys[..], queue) && Work(queue) < Work(qs)
  {
    queue := qs;
    if qs[0].x < qs[0].y {
      ghost var s := ys[..];
      var ls, rs := Partition(le, ys, qs[0].x, qs[0].y);
      queue := Enqueue(qs, |ls|, |rs|);
      RoundDone(le, s, qs, ls, rs);
    } else {
      ShortRangeDone(le, ys[..], qs);
    }
    queue := queue[1..];
  }

  lemma NothingPending<T(!new)>(le: (T, T) -> bool, all: seq<T>, s: seq<T>)
    requires Pending(le, all, s, [])
    ensures Sorted(le, s) && multiset(s) == multiset(all)
  {
  }

  lemma AllPending<T(!new)>(le: (T, T) -> bool, s: seq<T>)
    ensures Pending(le, s, s, [Range(0, |s| - 1)])
  {
    assert [Range(0, |s| - 1)][0] == Range(0, |s| - 1);
  }

  /** Sorts a copy of the list; the result is in order and holds the same elements. */
  method Qsort<T(!new)>(le: (T, T) -> bool, xs: seq<T>) returns (sorted: seq<T>)
    requires TotalOrder(le)
    ensures Sorted(le, sorted)
    ensures multiset(sorted) == multiset(xs)
  {
    var ys := new T[|xs|](i requires 0 <= i < |xs| => xs[i]);
    assert ys[..] == xs;
    var qs := [Range(0, |xs| - 1)];
    AllPending(le, xs);
    while |qs| > 0
      invariant Pending(le, xs, ys[..], qs)
      decreases Work(qs)
    {
      qs := Round(le, ys, qs, xs);
    }
    NothingPending(le, xs, ys[..]);
    return ys[..];
  }

  lemma ShortRangeDone<T>(le: (T, T) -> bool, s: seq<T>, qs: seq<Range>)
    requires qs != [] && ValidRanges(|s|, qs) && qs[0].x >= qs[0].y
    requires SettledOutside(le, s, qs)
    ensures SettledOutside(le, s, qs[1..])
    ensures ValidRanges(|s|, qs[1..])
  {
    forall i, j | 0 <= i < j < |s|
      ensures SameRange(qs[1..], i, j) || le(s[i], s[j])
    {
      if SameRange(qs, i, j) {
        var a :| 0 <= a < |qs| && qs[a].x <= i && j <= qs[a].y;
        assert qs[1..][a - 1] == qs[a];
      }
    }
  }

  /** Binary search on a sorted list: -1 exactly when no element is equal to x. */
  method Bsearch<T(==,!new)>(le: (T, T) -> bool, x: T, xs: seq<T>) returns (mid: int)
    requires TotalOrder(le)
    requires forall a, b :: le(a, b) && le(b, a) ==> a == b
    requires Sorted(le, xs)
    ensures mid == -1 <==> x !in xs
    ensures mid != -1 ==> 0 <= mid < |xs| && xs[mid] == x
  {
    var start, end := 0, |xs| - 1;
    while start <= end
      invariant 0 <= start <= end + 1 <= |xs|
      invariant forall i :: 0 <= i < start || end < i < |xs| ==> xs[i] != x
    {
      mid := start + (end - start) / 2;
      if xs[mid] == x {
        return mid;
      } else if !le(x, xs[mid]) {
        start := mid + 1;
      } else {
        end := mid - 1;
      }
    }
    return -1;
  }
}
