/** MostFrequent of until/miscellaneous/miscellaneous.go. */
module Frequent {
  import opened Bytes

  /** Equal elements stand next to each other, as they do in a sorted slice. */
  ghost predicate Grouped<T(!new)>(xs: seq<T>) {
    forall i, j, k :: 0 <= i <= j <= k < |xs| && xs[i] == xs[k] ==> xs[j] == xs[i]
  }

  function Count<T(==)>(xs: seq<T>, v: T): nat {
    if xs == [] then 0 else Count(xs[..|xs| - 1], v) + if xs[|xs| - 1] == v then 1 else 0
  }

  lemma {:induction false} CountRun<T>(xs: seq<T>, v: T, n: nat, x: T)
    ensures Count(xs + Repeat(v, n), x) == Count(xs, x) + if x == v then n else 0
  {
    if n == 0 {
      assert xs + Repeat(v, 0) == xs;
    } else {
      CountRun(xs, v, n - 1, x);
      assert (xs + Repeat(v, n))[..|xs| + n - 1] == xs + Repeat(v, n - 1);
    }
  }

  lemma {:induction false} CountNone<T>(xs: seq<T>, v: T)
    ensures Count(xs, v) == 0 <==> v !in xs
    ensures Count(xs, v) <= |xs|
  {
    if xs != [] {
      CountNone(xs[..|xs| - 1], v);
      assert xs == xs[..|xs| - 1] + [xs[|xs| - 1]];
    }
  }

  /** m is the highest count in xs, and rs are the elements that reach it, each once. */
  ghost predicate Tops<T(!new)>(xs: seq<T>, m: nat, rs: seq<T>) {
    && (forall v :: Count(xs, v) <= m)
    && (forall v :: v in rs <==> v in xs && Count(xs, v) == m)
    && (forall i, j :: 0 <= i < j < |rs| ==> rs[i] != rs[j])
    && (if xs == [] then m == 0 else rs != [])
  }

  /** The run of v that ends at i and started n elements before. */
  ghost predicate RunAt<T>(xs: seq<T>, i: nat, n: nat) {
    i < |xs| && 1 <= n <= i + 1 && forall j :: i + 1 - n <= j <= i ==> xs[j] == xs[i]
  }

  lemma RunCounted<T(!new)>(xs: seq<T>, i: nat, n: nat, v: T)
    requires Grouped(xs) && RunAt(xs, i, n)
    requires i + 1 - n > 0 ==> xs[i - n] != xs[i]
    ensures xs[i] !in xs[..i + 1 - n]
    ensures Count(xs[..i + 1], v) == Count(xs[..i + 1 - n], v) + if v == xs[i] then n else 0
    ensures v in xs[..i + 1] <==> v in xs[..i + 1 - n] || v == xs[i]
  {
    var start := i + 1 - n;
    assert xs[..i + 1] == xs[..start] + Repeat(xs[i], n);
    CountRun(xs[..start], xs[i], n, v);
  }

  /** What the switch does at the end of a run. */
  function Ranked<T>(m: nat, rs: seq<T>, n: nat, x: T): (nat, seq<T>) {
    if n == m then (m, rs + [x]) else if n > m then (n, [x]) else (m, rs)
  }

  lemma RunRanked<T(!new)>(xs: seq<T>, i: nat, n: nat, m: nat, rs: seq<T>)
    requires Grouped(xs) && RunAt(xs, i, n)
    requires i + 1 - n > 0 ==> xs[i - n] != xs[i]
    requires Tops(xs[..i + 1 - n], m, rs)
    ensures var (m1, rs1) := Ranked(m, rs, n, xs[i]); Tops(xs[..i + 1], m1, rs1)
  {
    var x, start := xs[i], i + 1 - n;
    var (m1, rs1) := Ranked(m, rs, n, x);
    RunCounted(xs, i, n, x);
    CountNone(xs[..start], x);
    assert |xs[..start]| == start && xs[..i + 1] != [];
    assert x !in rs;
    var ys := xs[..i + 1];
    forall v ensures Count(ys, v) <= m1 {
      RunCounted(xs, i, n, v);
    }
    forall v ensures v in rs1 <==> v in ys && Count(ys, v) == m1 {
      RunCounted(xs, i, n, v);
      CountNone(xs[..start], v);
    }
  }

  /** The elements of rs stand in the order in which xs has them. */
  ghost predicate InOrder<T(!new)>(xs: seq<T>, rs: seq<T>) {
    forall i, j, a, b ::
      0 <= i < j < |rs| && 0 <= a < |xs| && 0 <= b < |xs| && xs[a] == rs[i] && xs[b] == rs[j] ==> a < b
  }

  lemma RunInOrder<T(!new)>(xs: seq<T>, i: nat, n: nat, m: nat, rs: seq<T>)
    requires Grouped(xs) && RunAt(xs, i, n)
    requires i + 1 - n > 0 ==> xs[i - n] != xs[i]
    requires Tops(xs[..i + 1 - n], m, rs) && InOrder(xs[..i + 1 - n], rs)
    ensures InOrder(xs[..i + 1], Ranked(m, rs, n, xs[i]).1)
  {
    var start, ys, rs1 := i + 1 - n, xs[..i + 1], Ranked(m, rs, n, xs[i]).1;
    RunCounted(xs, i, n, xs[i]);
    forall p, q, a, b | 0 <= p < q < |rs1| && 0 <= a <= i && 0 <= b <= i && ys[a] == rs1[p] && ys[b] == rs1[q]
      ensures a < b
    {
      assert rs1 == rs || rs1 == rs + [xs[i]];
      assert p < |rs| && rs1[p] == rs[p] && rs[p] in xs[..start];
      assert rs[p] != xs[i] && a < start && xs[..start][a] == xs[a];
      if b < start {
        assert xs[..start][b] == xs[b] && xs[b] != xs[i];
        assert q < |rs|;
      }
    }
  }

  method MostFrequent<T(==, !new)>(xs: seq<T>) returns (m: nat, rs: seq<T>)
    requires Grouped(xs)
    ensures Tops(xs, m, rs) && InOrder(xs, rs)
  {
    if |xs| == 0 {
      return 0, [];
    }
    if |xs| == 1 {
      assert xs[..0] == [];
      RunRanked(xs, 0, 1, 0, []);
      assert xs[..1] == xs;
      return 1, [xs[0]];
    }
    var n := 1;
    m, rs := 0, [];
    var i := 0;
    assert xs[..0] == [];
    while i < |xs|
      invariant i <= |xs| && 1 <= n <= i + 1
      invariant Tops(xs[..i + 1 - n], m, rs) && InOrder(xs[..i + 1 - n], rs)
      invariant i < |xs| ==> RunAt(xs, i, n)
      invariant 0 < i + 1 - n < |xs| ==> xs[i - n] != xs[i + 1 - n]
      invariant i == |xs| ==> n == 1
    {
      if i == |xs| - 1 || xs[i] != xs[i + 1] {
        RunRanked(xs, i, n, m, rs);
        RunInOrder(xs, i, n, m, rs);
        if n == m {
          rs := rs + [xs[i]];
        } else if n > m {
          m := n;
          rs := [xs[i]];
        }
        n := 0;
      }
      n := n + 1;
      i := i + 1;
    }
    assert xs[..|xs|] == xs;
  }
}
