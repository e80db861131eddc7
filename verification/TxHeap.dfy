/** The heap of the pool: the order of txpool/txpool.go on transactions, kept by the algorithm of
    Go's container/heap. */
module TxHeaps {
  import opened Bytes
  import opened Rewards

  type Heap = seq<Transaction>

  /** GetNonce: the nonce as an int64, so that from 2^63 on it is negative. */
  function Signed(t: Transaction): int {
    Int64(t.nonce)
  }

  /** By signed nonce for one sender, by time otherwise. */
  predicate Less(x: Transaction, y: Transaction) {
    if x.from == y.from && Signed(x) != Signed(y) then Signed(x) < Signed(y) else x.time < y.time
  }

  function Swap(h: Heap, i: nat, j: nat): Heap
    requires i < |h| && j < |h|
  {
    h[i := h[j]][j := h[i]]
  }

  function Parent(k: nat): (p: nat)
    requires k > 0
    ensures p < k && (k == 2 * p + 1 || k == 2 * p + 2)
  {
    (k - 1) / 2
  }

  function Up(h: Heap, j: nat): (r: Heap)
    requires j < |h|
    ensures |r| == |h|
    decreases j
  {
    if j == 0 || !Less(h[j], h[Parent(j)]) then h else Up(Swap(h, Parent(j), j), Parent(j))
  }

  /** The child of i that goes first. */
  function Child(h: Heap, i: nat): (j: nat)
    requires 2 * i + 1 < |h|
    ensures i < j < |h| && Parent(j) == i
  {
    if 2 * i + 2 < |h| && Less(h[2 * i + 2], h[2 * i + 1]) then 2 * i + 2 else 2 * i + 1
  }

  function Down(h: Heap, i: nat): (r: Heap)
    ensures |r| == |h|
    decreases |h| - i
  {
    if 2 * i + 1 >= |h| || !Less(h[Child(h, i)], h[i]) then h else Down(Swap(h, i, Child(h, i)), Child(h, i))
  }

  function Push(h: Heap, t: Transaction): Heap {
    Up(h + [t], |h|)
  }

  /** The first element; the last one takes its place and sinks. */
  function Popped(h: Heap): (r: Heap)
    requires h != []
    ensures |r| == |h| - 1
  {
    var n := |h| - 1;
    Down(Swap(h, 0, n)[..n], 0)
  }

  /** What the heap pops, one after the other. */
  function PopOrder(h: Heap): (r: seq<Transaction>)
    ensures |r| == |h|
    decreases |h|
  {
    if h == [] then [] else [h[0]] + PopOrder(Popped(h))
  }

  // ---------------------------------------------------------------- nothing is lost

  lemma SwapKeeps(h: Heap, i: nat, j: nat)
    requires i < |h| && j < |h|
    ensures multiset(Swap(h, i, j)) == multiset(h)
  {
  }

  lemma {:induction false} UpKeeps(h: Heap, j: nat)
    requires j < |h|
    ensures multiset(Up(h, j)) == multiset(h)
    decreases j
  {
    if j > 0 && Less(h[j], h[Parent(j)]) {
      SwapKeeps(h, Parent(j), j);
      UpKeeps(Swap(h, Parent(j), j), Parent(j));
    }
  }

  lemma {:induction false} DownKeeps(h: Heap, i: nat)
    ensures multiset(Down(h, i)) == multiset(h)
    decreases |h| - i
  {
    if 2 * i + 1 < |h| && Less(h[Child(h, i)], h[i]) {
      SwapKeeps(h, i, Child(h, i));
      DownKeeps(Swap(h, i, Child(h, i)), Child(h, i));
    }
  }

  lemma PushKeeps(h: Heap, t: Transaction)
    ensures multiset(Push(h, t)) == multiset(h) + multiset{t}
  {
    UpKeeps(h + [t], |h|);
  }

  lemma PoppedKeeps(h: Heap)
    requires h != []
    ensures multiset(h) == multiset{h[0]} + multiset(Popped(h))
  {
    var n := |h| - 1;
    var s := Swap(h, 0, n);
    SwapKeeps(h, 0, n);
    assert s == s[..n] + [s[n]] && s[n] == h[0];
    DownKeeps(s[..n], 0);
  }

  /** Whatever the order does, every element is popped once. */
  lemma {:induction false} PopOrderKeeps(h: Heap)
    ensures multiset(PopOrder(h)) == multiset(h)
    decreases |h|
  {
    if h != [] {
      PoppedKeeps(h);
      PopOrderKeeps(Popped(h));
    }
  }

  // ---------------------------------------------------------------- when the order is one

  /** The order has cycles, and these are all of three: two transactions of one sender against their
      signed nonces in time, and another sender's between them. */
  lemma CycleIff(x: Transaction, y: Transaction, z: Transaction)
    ensures Less(x, y) && Less(y, z) && Less(z, x) <==> Cycle(x, y, z) || Cycle(y, z, x) || Cycle(z, x, y)
  {
  }

  predicate Cycle(x: Transaction, y: Transaction, z: Transaction) {
    x.from == z.from != y.from && Signed(z) < Signed(x) && x.time < y.time < z.time
  }

  /** Each sender's signed nonces grow with time. */
  ghost predicate Timely(h: Heap) {
    forall i, j :: 0 <= i < |h| && 0 <= j < |h| && h[i].from == h[j].from && Signed(h[i]) < Signed(h[j]) ==>
      h[i].time < h[j].time
  }

  lemma TimelyMembers(h: Heap, g: Heap)
    requires Timely(h) && forall i :: 0 <= i < |g| ==> g[i] in h
    ensures Timely(g)
  {
    forall i, j | 0 <= i < |g| && 0 <= j < |g| && g[i].from == g[j].from && Signed(g[i]) < Signed(g[j])
      ensures g[i].time < g[j].time
    {
      assert g[i] in h && g[j] in h;
    }
  }

  /** The element k does not come before the element p. */
  predicate After(h: Heap, p: nat, k: nat) {
    p < |h| && k < |h| ==> h[p].time <= h[k].time
  }

  /** A heap by time. */
  ghost predicate Ordered(h: Heap) {
    forall k: nat :: k > 0 ==> After(h, Parent(k), k)
  }

  /** In order but for element j, which may belong further up. */
  ghost predicate OrderedBut(h: Heap, j: nat) {
    && (forall k: nat :: k > 0 && k != j ==> After(h, Parent(k), k))
    && (forall k: nat :: j > 0 && k > 0 && Parent(k) == j ==> After(h, Parent(j), k))
  }

  /** In order but for element i, which may belong further down. */
  ghost predicate OrderedAbove(h: Heap, i: nat) {
    && (forall k: nat :: k > 0 && Parent(k) != i ==> After(h, Parent(k), k))
    && (forall k: nat :: i > 0 && k > 0 && Parent(k) == i ==> After(h, Parent(i), k))
  }

  lemma SwapTimely(h: Heap, i: nat, j: nat)
    requires i < |h| && j < |h| && Timely(h)
    ensures Timely(Swap(h, i, j))
  {
    TimelyMembers(h, Swap(h, i, j));
  }

  lemma TimelyLess(h: Heap, i: nat, j: nat)
    requires i < |h| && j < |h| && Timely(h)
    ensures Less(h[i], h[j]) <==> h[i].time < h[j].time
  {
  }

  lemma UpStep(h: Heap, j: nat)
    requires 0 < j < |h| && OrderedBut(h, j) && h[j].time < h[Parent(j)].time
    ensures OrderedBut(Swap(h, Parent(j), j), Parent(j))
  {
    var p, g := Parent(j), Swap(h, Parent(j), j);
    forall k: nat | k > 0 && k != p ensures After(g, Parent(k), k) {
      assert After(h, Parent(k), k) || k == j;
      assert Parent(k) == j ==> After(h, p, k);
    }
    forall k: nat | p > 0 && k > 0 && Parent(k) == p ensures After(g, Parent(p), k) {
      assert After(h, Parent(p), p) && (k != j ==> After(h, p, k));
    }
  }

  lemma {:induction false} UpOrders(h: Heap, j: nat)
    requires j < |h| && Timely(h) && OrderedBut(h, j)
    ensures Ordered(Up(h, j))
    decreases j
  {
    if j > 0 {
      TimelyLess(h, j, Parent(j));
      if Less(h[j], h[Parent(j)]) {
        UpStep(h, j);
        SwapTimely(h, Parent(j), j);
        UpOrders(Swap(h, Parent(j), j), Parent(j));
      }
    }
  }

  /** The child that goes first is before its sibling. */
  lemma ChildFirst(h: Heap, i: nat, k: nat)
    requires 2 * i + 1 < |h| && Timely(h) && k > 0 && Parent(k) == i
    ensures After(h, Child(h, i), k)
  {
    if k < |h| {
      assert k == 2 * i + 1 || k == 2 * i + 2;
      if 2 * i + 2 < |h| {
        TimelyLess(h, 2 * i + 2, 2 * i + 1);
      }
    }
  }

  lemma DownStep(h: Heap, i: nat)
    requires 2 * i + 1 < |h| && Timely(h) && OrderedAbove(h, i) && h[Child(h, i)].time < h[i].time
    ensures OrderedAbove(Swap(h, i, Child(h, i)), Child(h, i))
  {
    var j := Child(h, i);
    var g := Swap(h, i, j);
    forall k: nat | k > 0 && Parent(k) != j ensures After(g, Parent(k), k) {
      if Parent(k) == i {
        ChildFirst(h, i, k);
      } else {
        assert After(h, Parent(k), k);
        assert k == i ==> After(h, Parent(i), j);
      }
    }
    forall k: nat | k > 0 && Parent(k) == j ensures After(g, Parent(j), k) {
      assert After(h, j, k);
    }
  }

  lemma {:induction false} DownOrders(h: Heap, i: nat)
    requires Timely(h) && OrderedAbove(h, i)
    ensures Ordered(Down(h, i))
    decreases |h| - i
  {
    if 2 * i + 1 < |h| && Less(h[Child(h, i)], h[i]) {
      TimelyLess(h, Child(h, i), i);
      DownStep(h, i);
      SwapTimely(h, i, Child(h, i));
      DownOrders(Swap(h, i, Child(h, i)), Child(h, i));
    } else {
      NoChildBefore(h, i);
    }
  }

  lemma NoChildBefore(h: Heap, i: nat)
    requires Timely(h) && OrderedAbove(h, i)
    requires 2 * i + 1 >= |h| || !Less(h[Child(h, i)], h[i])
    ensures Ordered(h)
  {
    forall k: nat | k > 0 ensures After(h, Parent(k), k) {
      if Parent(k) == i && k < |h| {
        ChildFirst(h, i, k);
        TimelyLess(h, Child(h, i), i);
      }
    }
  }

  /** Adding keeps the heap in order while each sender's signed nonces grow with time. */
  lemma PushOrders(h: Heap, t: Transaction)
    requires Timely(h + [t]) && Ordered(h)
    ensures Ordered(Push(h, t))
  {
    var g := h + [t];
    forall k: nat | k > 0 && k != |h| ensures After(g, Parent(k), k) {
      assert After(h, Parent(k), k);
    }
    UpOrders(g, |h|);
  }

  lemma LastInFront(h: Heap)
    requires h != [] && Ordered(h)
    ensures OrderedAbove(Swap(h, 0, |h| - 1)[..|h| - 1], 0)
  {
    var g := Swap(h, 0, |h| - 1)[..|h| - 1];
    forall k: nat | k > 0 && Parent(k) != 0 ensures After(g, Parent(k), k) {
      assert After(h, Parent(k), k);
    }
  }

  lemma {:induction false} DownMembers(h: Heap, i: nat)
    ensures forall x :: x in Down(h, i) ==> x in h
  {
    DownKeeps(h, i);
    forall x | x in Down(h, i) ensures x in h {
      assert x in multiset(Down(h, i));
    }
  }

  lemma PoppedMembers(h: Heap)
    requires h != []
    ensures forall x :: x in Popped(h) ==> x in h
  {
    DownMembers(Swap(h, 0, |h| - 1)[..|h| - 1], 0);
  }

  lemma PoppedOrders(h: Heap)
    requires h != [] && Timely(h) && Ordered(h)
    ensures Timely(Popped(h)) && Ordered(Popped(h))
  {
    var g := Swap(h, 0, |h| - 1)[..|h| - 1];
    TimelyMembers(h, g);
    LastInFront(h);
    DownOrders(g, 0);
    PoppedMembers(h);
    TimelyMembers(h, Popped(h));
  }

  lemma {:induction false} FirstIsLeast(h: Heap, k: nat)
    requires Ordered(h) && k < |h|
    ensures h[0].time <= h[k].time
  {
    if k > 0 {
      FirstIsLeast(h, Parent(k));
      assert After(h, Parent(k), k);
    }
  }

  lemma RestIsLater(h: Heap, x: Transaction)
    requires h != [] && Ordered(h) && x in PopOrder(Popped(h))
    ensures h[0].time <= x.time
  {
    PopOrderKeeps(Popped(h));
    assert x in multiset(PopOrder(Popped(h)));
    assert x in Popped(h);
    PoppedMembers(h);
    var k :| 0 <= k < |h| && h[k] == x;
    FirstIsLeast(h, k);
  }

  ghost predicate ByTime(s: seq<Transaction>) {
    forall i, j :: 0 <= i < j < |s| ==> s[i].time <= s[j].time
  }

  lemma {:induction false} PopsByTime(h: Heap)
    requires Timely(h) && Ordered(h)
    ensures ByTime(PopOrder(h))
    decreases |h|
  {
    if h != [] {
      PoppedOrders(h);
      PopsByTime(Popped(h));
      var rest := PopOrder(Popped(h));
      forall j | 0 <= j < |rest| ensures h[0].time <= rest[j].time {
        RestIsLater(h, rest[j]);
      }
    }
  }

  // ---------------------------------------------------------------- increasing nonces

  /** Each sender's transactions are popped in increasing nonce order. */
  ghost predicate Increasing(popped: seq<Transaction>) {
    forall i, j :: 0 <= i < j < |popped| && popped[i].from == popped[j].from ==> popped[i].nonce < popped[j].nonce
  }

  predicate SameSlot(t: Transaction, u: Transaction) {
    t.from == u.from && t.nonce == u.nonce
  }

  /** No sender has two transactions with one nonce. */
  ghost predicate Distinct(m: multiset<Transaction>) {
    && (forall x :: x in m ==> m[x] == 1)
    && (forall x, y :: x in m && y in m && SameSlot(x, y) ==> x == y)
  }

  lemma TwiceIn(s: seq<Transaction>, i: nat, j: nat)
    requires i < j < |s| && s[i] == s[j]
    ensures multiset(s)[s[i]] >= 2
  {
    assert s == s[..j] + [s[j]] + s[j + 1..];
    assert s[i] == s[..j][i] && s[i] in multiset(s[..j]);
  }

  ghost predicate SignedIncreasing(popped: seq<Transaction>) {
    forall i, j :: 0 <= i < j < |popped| && popped[i].from == popped[j].from ==> Signed(popped[i]) < Signed(popped[j])
  }

  /** Both nonces below 2^63, or neither: only then do they compare alike with and without sign. */
  predicate SameSide(t: Transaction, u: Transaction) {
    t.nonce < 0x8000_0000_0000_0000 <==> u.nonce < 0x8000_0000_0000_0000
  }

  /** No sender has nonces on both sides of 2^63. */
  ghost predicate OneSided(s: seq<Transaction>) {
    forall x, y :: x in s && y in s && x.from == y.from ==> SameSide(x, y)
  }

  lemma SortedIncreasing(s: seq<Transaction>)
    requires ByTime(s) && Timely(s) && Distinct(multiset(s))
    ensures SignedIncreasing(s)
  {
    forall i, j | 0 <= i < j < |s| && s[i].from == s[j].from ensures Signed(s[i]) < Signed(s[j]) {
      assert s[i] in multiset(s) && s[j] in multiset(s);
      if SameSlot(s[i], s[j]) {
        TwiceIn(s, i, j);
      }
    }
  }

  /** An increasing order of signed nonces is one of the nonces themselves if and only if they are
      all on one side. */
  lemma SignedIsUnsigned(s: seq<Transaction>)
    requires SignedIncreasing(s)
    ensures Increasing(s) <==> OneSided(s)
  {
    if OneSided(s) {
      forall i, j | 0 <= i < j < |s| && s[i].from == s[j].from ensures s[i].nonce < s[j].nonce {
        assert SameSide(s[i], s[j]);
      }
    }
    if Increasing(s) {
      forall x, y | x in s && y in s && x.from == y.from ensures SameSide(x, y) {
        var i :| 0 <= i < |s| && s[i] == x;
        var j :| 0 <= j < |s| && s[j] == y;
      }
    }
  }

  lemma SameMembers(s: seq<Transaction>, h: Heap)
    requires multiset(s) == multiset(h)
    ensures forall x :: x in s <==> x in h
  {
    forall x ensures x in s <==> x in h {
      assert x in multiset(s) <==> x in multiset(h);
    }
  }

  /** A heap in order, without doubles and with each sender's signed nonces growing with time, pops
      each sender's transactions by increasing signed nonces; so by increasing nonces if and only if
      no sender has nonces on both sides of 2^63. */
  lemma PopsIncreasing(h: Heap)
    requires Timely(h) && Ordered(h) && Distinct(multiset(h))
    ensures multiset(PopOrder(h)) == multiset(h) && SignedIncreasing(PopOrder(h))
    ensures Increasing(PopOrder(h)) <==> OneSided(h)
  {
    PopsByTime(h);
    PopOrderKeeps(h);
    var s := PopOrder(h);
    SameMembers(s, h);
    TimelyMembers(h, s);
    SortedIncreasing(s);
    SignedIsUnsigned(s);
  }
}
