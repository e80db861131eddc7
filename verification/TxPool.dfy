/** The pool of txpool/txpool.go: what it admits, which transactions popped from its heap go into
    the next block, and what a committed block takes out of it. */
module TxPool {
  import opened Bytes
  import opened Options
  import opened Rewards
  import opened Ledger
  import opened TxHeaps
  import T = TokenExec

  const TOTAL_QUANTITY := 500

  /** The pool's working state during one call; balance holds Go int64 values. */
  datatype Packing = Packing(pending: seq<Transaction>, queue: Heap,
                             item: map<bytes, uint64>, balance: map<bytes, int>)

  /** Subtraction on int64. */
  function SubInt64(a: int, b: int): int {
    (a - b + 0x8000_0000_0000_0000) % 0x1_0000_0000_0000_0000 - 0x8000_0000_0000_0000
  }

  /** The balance not locked, as the loop computes it. */
  function FreeBalance(st: State, a: bytes): uint64 {
    Sub64(Get(st.balances, a), Get(st.locks, a))
  }

  /** Packing t: its sender's item moves to n, its script is tried, its cost is set aside. None
      stands for Go's panic on a nil script, or on an overlay that has no root. */
  function PackTx(st: State, p: Packing, t: Transaction, n: uint64): Option<Packing>
    requires T.WellStored(st.tokens) && ValidTx(t) && t.from in p.balance
  {
    var q := p.(item := p.item[t.from := n]);
    if t.script == [] then
      Some(q.(pending := p.pending + [t], balance := p.balance[t.from := SubInt64(p.balance[t.from], Int64(t.amount))]))
    else match ExecNew(st.tokens, t.script, t.from)
      case Crashed => None
      case Refused => Some(q)
      case Built(mp) =>
        if T.Rootless(mp) then None
        else
          var b := SubInt64(SubInt64(p.balance[t.from], Int64(t.fee)), Int64(t.amount));
          Some(q.(pending := p.pending + [t], balance := p.balance[t.from := b]))
  }

  /** What the loop does once the sender's balance is known: n is the chain nonce. */
  function Decide(st: State, p: Packing, t: Transaction, n: uint64): Option<Packing>
    requires T.WellStored(st.tokens) && ValidTx(t) && t.from in p.balance
  {
    if t.nonce == n then
      if t.from !in p.item && p.balance[t.from] >= Int64(t.amount) then PackTx(st, p, t, n) else Some(p)
    else if t.from !in p.item then
      Some(p.(item := p.item[t.from := n], queue := Push(p.queue, t)))
    else if t.nonce == Add64(p.item[t.from], 1) then
      if p.balance[t.from] >= Int64(t.amount) then PackTx(st, p, t, t.nonce) else Some(p)
    else Some(p.(queue := Push(p.queue, t)))
  }

  /** One popped transaction. */
  function Consider(st: State, p: Packing, t: Transaction): Option<Packing>
    requires T.WellStored(st.tokens) && ValidTx(t)
  {
    var n := NonceOf(st.nonces, t.from);
    if t.nonce < n then Some(p)
    else if t.from in p.balance then Decide(st, p, t, n)
    else
      var free := FreeBalance(st, t.from);
      if free <= 0 || free < t.amount then Some(p)
      else Decide(st, p.(balance := p.balance[t.from := Int64(free)]), t, n)
  }

  /** The loop after the transactions of `popped`; it stops when the block is full. */
  function PackAll(st: State, p: Packing, popped: seq<Transaction>): Option<Packing>
    requires T.WellStored(st.tokens) && ValidTxs(popped)
  {
    if popped == [] then Some(p)
    else match PackAll(st, p, popped[..|popped| - 1])
      case None => None
      case Some(q) => if |q.pending| >= TOTAL_QUANTITY then Some(q) else Consider(st, q, popped[|popped| - 1])
  }

  // ---------------------------------------------------------------- admission and removal

  const LEAST: uint64 := 500000

  /** verify: wellFormed stands for the checks of addresses and signature, orderGood for there being
      no order or one with a good signature. */
  predicate Admits(st: State, t: Transaction, wellFormed: bool, orderGood: bool) {
    var bal := Get(st.balances, t.from);
    var ulb := Sub64(bal, Get(st.locks, t.from));
    && wellFormed
    && t.nonce >= NonceOf(st.nonces, t.from)
    && ulb >= t.amount
    && (t.script != [] ==> LEAST <= t.fee <= ulb)
    && LEAST <= t.amount <= bal
    && orderGood
  }

  /** The list without the transactions that t replaces. */
  function Without(list: seq<Transaction>, t: Transaction): seq<Transaction> {
    if list == [] then []
    else Without(list[..|list| - 1], t) + if SameSlot(t, list[|list| - 1]) then [] else [list[|list| - 1]]
  }

  function WithoutAll(list: seq<Transaction>, txs: seq<Transaction>): seq<Transaction> {
    if txs == [] then list else Without(WithoutAll(list, txs[..|txs| - 1]), txs[|txs| - 1])
  }

  lemma {:induction false} WithoutIs(list: seq<Transaction>, t: Transaction, x: Transaction)
    ensures x in Without(list, t) <==> x in list && !SameSlot(t, x)
  {
    if list != [] {
      WithoutIs(list[..|list| - 1], t, x);
      assert list == list[..|list| - 1] + [list[|list| - 1]];
    }
  }

  /** Filtering takes out exactly what a committed block has used up: every sender and nonce in it. */
  lemma {:induction false} FilterRemovesCommitted(list: seq<Transaction>, txs: seq<Transaction>, x: Transaction)
    ensures x in WithoutAll(list, txs) <==> x in list && forall i :: 0 <= i < |txs| ==> !SameSlot(txs[i], x)
  {
    if txs != [] {
      var init, t := txs[..|txs| - 1], txs[|txs| - 1];
      FilterRemovesCommitted(list, init, x);
      WithoutIs(WithoutAll(list, init), t, x);
      assert forall i :: 0 <= i < |init| ==> init[i] == txs[i];
    }
  }

  lemma {:induction false} WithoutConcat(a: seq<Transaction>, b: seq<Transaction>, t: Transaction)
    ensures Without(a + b, t) == Without(a, t) + Without(b, t)
  {
    if b == [] {
      assert a + b == a;
    } else {
      var init := b[..|b| - 1];
      WithoutConcat(a, init, t);
      assert (a + b)[..|a + b| - 1] == a + init;
    }
  }

  lemma WithoutHead(u: Transaction, rest: seq<Transaction>, t: Transaction)
    ensures Without([u] + rest, t) == (if SameSlot(t, u) then [] else [u]) + Without(rest, t)
  {
    WithoutConcat([u], rest, t);
    WithoutOne(u, t);
  }

  lemma WithoutOne(u: Transaction, t: Transaction)
    ensures Without([u], t) == if SameSlot(t, u) then [] else [u]
  {
    assert [u][..0] == [];
  }

  /** What the loop makes of the transactions still in the list. */
  function PackRest(st: State, p: Packing, list: seq<Transaction>): Option<Packing>
    requires T.WellStored(st.tokens) && ValidTxs(list)
    decreases |list|
  {
    if list == [] || |p.pending| >= TOTAL_QUANTITY then Some(p)
    else match Consider(st, p, list[0])
      case None => None
      case Some(q) => PackRest(st, q, list[1..])
  }

  lemma {:induction false} PackRestSnoc(st: State, p: Packing, list: seq<Transaction>, t: Transaction)
    requires T.WellStored(st.tokens) && ValidTxs(list) && ValidTx(t) && ValidTxs(list + [t])
    ensures PackRest(st, p, list + [t]) ==
            match PackRest(st, p, list)
            case None => None
            case Some(q) => if |q.pending| >= TOTAL_QUANTITY then Some(q) else Consider(st, q, t)
    decreases |list|
  {
    if list == [] {
      assert list + [t] == [t] && [t][1..] == [];
    } else if |p.pending| < TOTAL_QUANTITY {
      assert (list + [t])[1..] == list[1..] + [t];
      var q := Consider(st, p, list[0]);
      if q.Some? {
        PackRestSnoc(st, q.value, list[1..], t);
      }
    }
  }

  /** From the front or from the back, it is the same loop. */
  lemma {:induction false} PackRestIsAll(st: State, p: Packing, popped: seq<Transaction>)
    requires T.WellStored(st.tokens) && ValidTxs(popped)
    ensures PackRest(st, p, popped) == PackAll(st, p, popped)
  {
    if popped != [] {
      var init, t := popped[..|popped| - 1], popped[|popped| - 1];
      assert popped == init + [t];
      PackRestIsAll(st, p, init);
      PackRestSnoc(st, p, init, t);
    }
  }

  /** The packing loop over the heap: where it ends, and what is left in the heap. */
  function PackHeap(st: State, p: Packing, h: Heap): Option<(Packing, Heap)>
    requires T.WellStored(st.tokens) && ValidTxs(PopOrder(h))
    decreases |h|
  {
    if h == [] || |p.pending| >= TOTAL_QUANTITY then Some((p, h))
    else
      ValidPops(h);
      match Consider(st, p, h[0])
      case None => None
      case Some(q) => PackHeap(st, q, Popped(h))
  }

  lemma ValidPops(h: Heap)
    requires h != [] && ValidTxs(PopOrder(h))
    ensures ValidTx(h[0]) && ValidTxs(PopOrder(Popped(h)))
  {
    var rest := PopOrder(Popped(h));
    assert PopOrder(h)[0] == h[0];
    forall i | 0 <= i < |rest| ensures ValidTx(rest[i]) {
      assert PopOrder(h)[i + 1] == rest[i];
    }
  }

  /** It is the loop over what the heap pops. */
  lemma {:induction false} PackHeapIsAll(st: State, p: Packing, h: Heap)
    requires T.WellStored(st.tokens) && ValidTxs(PopOrder(h))
    ensures var r, all := PackHeap(st, p, h), PackAll(st, p, PopOrder(h));
            if r.Some? then all == Some(r.value.0) else all == None
    decreases |h|
  {
    PackRestIsAll(st, p, PopOrder(h));
    if h != [] && |p.pending| < TOTAL_QUANTITY {
      ValidPops(h);
      var q := Consider(st, p, h[0]);
      assert PopOrder(h)[1..] == PopOrder(Popped(h));
      if q.Some? {
        PackHeapIsAll(st, q.value, Popped(h));
        PackRestIsAll(st, q.value, PopOrder(Popped(h)));
      }
    }
  }

  // ---------------------------------------------------------------- putting back

  /** What a loop counting up to the length of the heap it pops takes out, from count i on. */
  function Taken(h: Heap, i: nat): seq<Transaction>
    decreases |h|
  {
    if i >= |h| then [] else [h[0]] + Taken(Popped(h), i + 1)
  }

  /** What it leaves. */
  function Left(h: Heap, i: nat): Heap
    decreases |h|
  {
    if i >= |h| then h else Left(Popped(h), i + 1)
  }

  /** Those of txs from j on that are less than ten seconds old go into the heap; clock gives the
      seconds read for each. */
  function PutBack(h: Heap, txs: seq<Transaction>, clock: nat -> int, j: nat): Heap
    requires j <= |txs|
    decreases |txs| - j
  {
    if j == |txs| then h
    else PutBack(if clock(j) - txs[j].time < 10 then Push(h, txs[j]) else h, txs, clock, j + 1)
  }

  function Young(txs: seq<Transaction>, clock: nat -> int, j: nat): multiset<Transaction>
    requires j <= |txs|
    decreases |txs| - j
  {
    if j == |txs| then multiset{}
    else (if clock(j) - txs[j].time < 10 then multiset{txs[j]} else multiset{}) + Young(txs, clock, j + 1)
  }

  lemma {:induction false} LeftIsHalf(h: Heap, i: nat)
    requires i <= |h|
    ensures |Left(h, i)| == i + (|h| - i) / 2
    decreases |h|
  {
    if i + 1 < |h| {
      LeftIsHalf(Popped(h), i + 1);
    }
  }

  lemma {:induction false} TakenInOrder(h: Heap, i: nat)
    ensures Taken(h, i) + PopOrder(Left(h, i)) == PopOrder(h)
    decreases |h|
  {
    if i < |h| {
      var g := Popped(h);
      TakenInOrder(g, i + 1);
      OneTaken(h, i);
      Associates(h[0], Taken(g, i + 1), PopOrder(Left(g, i + 1)));
    }
  }

  lemma OneTaken(h: Heap, i: nat)
    requires i < |h|
    ensures Taken(h, i) == [h[0]] + Taken(Popped(h), i + 1) && Left(h, i) == Left(Popped(h), i + 1)
    ensures PopOrder(h) == [h[0]] + PopOrder(Popped(h))
  {
  }

  lemma Associates(x: Transaction, a: seq<Transaction>, b: seq<Transaction>)
    ensures ([x] + a) + b == [x] + (a + b)
  {
  }

  lemma TakenAndLeft(h: Heap)
    ensures multiset(Taken(h, 0)) + multiset(Left(h, 0)) == multiset(h)
  {
    TakenInOrder(h, 0);
    PopOrderKeeps(h);
    PopOrderKeeps(Left(h, 0));
    Joined(Taken(h, 0), PopOrder(Left(h, 0)), PopOrder(h));
  }

  lemma Joined(a: seq<Transaction>, b: seq<Transaction>, c: seq<Transaction>)
    requires a + b == c
    ensures multiset(a) + multiset(b) == multiset(c)
  {
    assert multiset(a + b) == multiset(a) + multiset(b);
  }

  lemma {:induction false} PutBackKeeps(h: Heap, txs: seq<Transaction>, clock: nat -> int, j: nat)
    requires j <= |txs|
    ensures multiset(PutBack(h, txs, clock, j)) == multiset(h) + Young(txs, clock, j)
    decreases |txs| - j
  {
    if j < |txs| {
      PushKeeps(h, txs[j]);
      PutBackKeeps(if clock(j) - txs[j].time < 10 then Push(h, txs[j]) else h, txs, clock, j + 1);
    }
  }

  lemma {:induction false} NoneYoung(txs: seq<Transaction>, clock: nat -> int, j: nat)
    requires j <= |txs| && forall k :: j <= k < |txs| ==> clock(k) - txs[k].time >= 10
    ensures Young(txs, clock, j) == multiset{}
    decreases |txs| - j
  {
    if j < |txs| {
      NoneYoung(txs, clock, j + 1);
    }
  }

  /** One call of Pendings: the loop over the heap, the queue put back, the notes forgotten. */
  function PackedRound(st: State, p: Packing, list: Heap, clock: nat -> int): Option<(Packing, Heap)>
    requires T.WellStored(st.tokens) && ValidTxs(PopOrder(list))
  {
    match PackHeap(st, p, list)
    case None => None
    case Some((q, left)) =>
      Some((Packing(q.pending, Left(q.queue, 0), map[], map[]), PutBack(left, Taken(q.queue, 0), clock, 0)))
  }

  /** The list after a block: without what the block has used up, and of half of the rest only what
      is young. */
  function Filtered(list: Heap, txs: seq<Transaction>, clock: nat -> int): Heap {
    var unused := WithoutAll(list, txs);
    PutBack(Left(unused, 0), Taken(unused, 0), clock, 0)
  }

  /** Whatever the block: half of the transactions it did not use, the odd one more, are taken out,
      and those of them that are ten seconds old are gone. */
  lemma FilterForgets(list: Heap, txs: seq<Transaction>, clock: nat -> int)
    ensures var unused := WithoutAll(list, txs);
            var out, rest := Taken(unused, 0), Left(unused, 0);
            && multiset(Filtered(list, txs, clock)) == multiset(rest) + Young(out, clock, 0)
            && multiset(out) + multiset(rest) == multiset(unused) && |rest| == |unused| / 2
            && ((forall k :: 0 <= k < |out| ==> clock(k) - out[k].time >= 10) ==>
                  |Filtered(list, txs, clock)| == |unused| / 2)
  {
    var unused := WithoutAll(list, txs);
    var out, rest := Taken(unused, 0), Left(unused, 0);
    LeftIsHalf(unused, 0);
    TakenAndLeft(unused);
    PutBackKeeps(rest, out, clock, 0);
    if forall k :: 0 <= k < |out| ==> clock(k) - out[k].time >= 10 {
      NoneYoung(out, clock, 0);
      SameSize(Filtered(list, txs, clock), rest);
    }
  }

  lemma SameSize(a: seq<Transaction>, b: seq<Transaction>)
    requires multiset(a) == multiset(b)
    ensures |a| == |b|
  {
    assert |multiset(a)| == |a| && |multiset(b)| == |b|;
  }

  /** While `kept` has been gone through and `rest` has not. */
  ghost predicate Removing(all: seq<Transaction>, t: Transaction, kept: seq<Transaction>, rest: seq<Transaction>) {
    kept + Without(rest, t) == Without(all, t)
  }

  lemma RemoveOne(all: seq<Transaction>, t: Transaction, kept: seq<Transaction>, rest: seq<Transaction>)
    requires rest != [] && Removing(all, t, kept, rest)
    ensures SameSlot(t, rest[0]) ==>
              (kept + rest)[..|kept|] + (kept + rest)[|kept| + 1..] == kept + rest[1..]
              && Removing(all, t, kept, rest[1..])
    ensures !SameSlot(t, rest[0]) ==>
              kept + rest == (kept + [rest[0]]) + rest[1..] && Removing(all, t, kept + [rest[0]], rest[1..])
  {
    var u, more := rest[0], rest[1..];
    assert rest == [u] + more;
    WithoutHead(u, more, t);
    if SameSlot(t, u) {
      assert [] + Without(more, t) == Without(more, t);
    } else {
      assert kept + ([u] + Without(more, t)) == (kept + [u]) + Without(more, t);
    }
  }

  // ---------------------------------------------------------------- adding

  datatype AddResult = Added | TooManyListed | NotVerified | TooManyOrDouble

  function CountFrom(list: seq<Transaction>, from: bytes): nat {
    if list == [] then 0
    else CountFrom(list[..|list| - 1], from) + if list[|list| - 1].from == from then 1 else 0
  }

  /** check: the sender has no transaction with the nonce and fewer than fifty in all. */
  ghost predicate Checks(list: seq<Transaction>, from: bytes, nonce: uint64) {
    && (forall i :: 0 <= i < |list| && list[i].from == from ==> list[i].nonce != nonce)
    && CountFrom(list, from) < 50
  }

  ghost function AddTo(st: State, list: Heap, t: Transaction, wellFormed: bool, orderGood: bool, now: int)
    : (AddResult, Heap)
  {
    if |list| > 1500 then (TooManyListed, list)
    else if !Admits(st, t, wellFormed, orderGood) then (NotVerified, list)
    else if !Checks(list, t.from, t.nonce) then (TooManyOrDouble, list)
    else (Added, Push(list, t.(time := now)))
  }

  /** What the pool needs of its list for popping in increasing nonces. */
  ghost predicate InGoodOrder(list: Heap) {
    Timely(list) && Ordered(list) && Distinct(multiset(list)) && OneSided(list)
  }

  /** t comes by a higher nonce and later than the sender's other transactions, on their side of 2^63. */
  ghost predicate ComesNext(list: Heap, t: Transaction, now: int) {
    forall x :: x in list && x.from == t.from ==> x.nonce < t.nonce && SameSide(x, t) && x.time < now
  }

  /** Adding never makes a double. It keeps the list in good order if the sender's transactions come
      in by increasing nonces on one side of 2^63, not two in one second. */
  lemma AddKeeps(st: State, list: Heap, t: Transaction, wellFormed: bool, orderGood: bool, now: int)
    requires Distinct(multiset(list))
    ensures Distinct(multiset(AddTo(st, list, t, wellFormed, orderGood, now).1))
    ensures InGoodOrder(list) && ComesNext(list, t, now)
            ==> InGoodOrder(AddTo(st, list, t, wellFormed, orderGood, now).1)
  {
    if AddTo(st, list, t, wellFormed, orderGood, now).0.Added? {
      PushedDistinct(list, t, t.(time := now));
      if InGoodOrder(list) && ComesNext(list, t, now) {
        PushedInOrder(list, t.(time := now));
      }
    }
  }

  lemma PushedDistinct(list: Heap, t: Transaction, u: Transaction)
    requires Distinct(multiset(list)) && Checks(list, t.from, t.nonce) && SameSlot(t, u)
    ensures Distinct(multiset(Push(list, u)))
  {
    PushKeeps(list, u);
    forall x | x in multiset(list) ensures !SameSlot(x, u) {
      var i :| 0 <= i < |list| && list[i] == x;
    }
  }

  lemma PushedInOrder(list: Heap, u: Transaction)
    requires Timely(list) && Ordered(list) && OneSided(list) && ComesNext(list, u, u.time)
    ensures Timely(Push(list, u)) && Ordered(Push(list, u)) && OneSided(Push(list, u))
  {
    TimelyWith(list, u);
    PushOrders(list, u);
    PushMembers(list, u);
    TimelyMembers(list + [u], Push(list, u));
  }

  lemma TimelyWith(list: Heap, u: Transaction)
    requires Timely(list) && ComesNext(list, u, u.time)
    ensures Timely(list + [u])
  {
    var g := list + [u];
    forall i, j | 0 <= i < |g| && 0 <= j < |g| && g[i].from == g[j].from && Signed(g[i]) < Signed(g[j])
      ensures g[i].time < g[j].time
    {
      assert i < |list| ==> g[i] in list;
      assert j < |list| ==> g[j] in list;
    }
  }

  lemma PushMembers(list: Heap, u: Transaction)
    ensures forall x :: x in Push(list, u) <==> x in list || x == u
  {
    UpKeeps(list + [u], |list|);
    SameMembers(Push(list, u), list + [u]);
  }

  // ---------------------------------------------------------------- filtering and the order

  /** What of a list in good order does not depend on how it is arranged. */
  ghost predicate GoodParts(list: Heap) {
    Timely(list) && Distinct(multiset(list)) && OneSided(list)
  }

  lemma FewerParts(list: Heap, part: Heap)
    requires GoodParts(list) && multiset(part) <= multiset(list)
    ensures GoodParts(part)
  {
    forall x | x in part ensures x in list {
      assert x in multiset(part);
    }
    TimelyMembers(list, part);
    forall x | x in multiset(part) ensures multiset(part)[x] == 1 {
      assert multiset(list)[x] == 1;
    }
  }

  lemma {:induction false} WithoutIsPart(list: Heap, t: Transaction)
    ensures multiset(Without(list, t)) <= multiset(list)
  {
    if list != [] {
      WithoutIsPart(list[..|list| - 1], t);
      assert list == list[..|list| - 1] + [list[|list| - 1]];
    }
  }

  lemma {:induction false} UnusedIsPart(list: Heap, txs: seq<Transaction>)
    ensures multiset(WithoutAll(list, txs)) <= multiset(list)
  {
    if txs != [] {
      UnusedIsPart(list, txs[..|txs| - 1]);
      WithoutIsPart(WithoutAll(list, txs[..|txs| - 1]), txs[|txs| - 1]);
    }
  }

  lemma {:induction false} LeftOrdered(h: Heap, i: nat)
    requires Timely(h) && Ordered(h)
    ensures Ordered(Left(h, i))
    decreases |h|
  {
    if i < |h| {
      PoppedOrders(h);
      LeftOrdered(Popped(h), i + 1);
    }
  }

  lemma PushIsPart(h: Heap, t: Transaction, rest: multiset<Transaction>, all: multiset<Transaction>)
    requires multiset(h) + (multiset{t} + rest) <= all
    ensures multiset(Push(h, t)) + rest <= all && multiset(h + [t]) <= all
  {
    PushKeeps(h, t);
  }

  lemma {:induction false} PutBackOrdered(h: Heap, txs: seq<Transaction>, clock: nat -> int, j: nat, all: Heap)
    requires j <= |txs| && Ordered(h) && GoodParts(all)
    requires multiset(h) + Young(txs, clock, j) <= multiset(all)
    ensures Ordered(PutBack(h, txs, clock, j))
    decreases |txs| - j
  {
    if j < |txs| {
      var g := h;
      if clock(j) - txs[j].time < 10 {
        PushIsPart(h, txs[j], Young(txs, clock, j + 1), multiset(all));
        FewerParts(all, h + [txs[j]]);
        PushOrders(h, txs[j]);
        g := Push(h, txs[j]);
      }
      PutBackOrdered(g, txs, clock, j + 1, all);
    }
  }

  lemma {:induction false} YoungIsPart(txs: seq<Transaction>, clock: nat -> int, j: nat)
    requires j <= |txs|
    ensures Young(txs, clock, j) <= multiset(txs[j..])
    decreases |txs| - j
  {
    if j < |txs| {
      YoungIsPart(txs, clock, j + 1);
      assert txs[j..] == [txs[j]] + txs[j + 1..];
    }
  }

  /** Filter keeps the list in good order if what it deletes leaves a heap, as it does when it deletes
      nothing or only from the end. */
  lemma FilterKeeps(list: Heap, txs: seq<Transaction>, clock: nat -> int)
    requires InGoodOrder(list) && Ordered(WithoutAll(list, txs))
    ensures InGoodOrder(Filtered(list, txs, clock))
  {
    var unused := WithoutAll(list, txs);
    var out, rest := Taken(unused, 0), Left(unused, 0);
    UnusedIsPart(list, txs);
    FewerParts(list, unused);
    TakenAndLeft(unused);
    LeftOrdered(unused, 0);
    YoungIsPart(out, clock, 0);
    assert out[0..] == out;
    PutBackOrdered(rest, out, clock, 0, unused);
    PutBackKeeps(rest, out, clock, 0);
    FewerParts(unused, Filtered(list, txs, clock));
  }

  // ---------------------------------------------------------------- the Go form

  class Txpool {
    var list: Heap
    var queue: Heap
    var pending: seq<Transaction>
    var item: map<bytes, uint64>
    var balance: map<bytes, int>

    ghost function Now(): Packing
      reads this
    {
      Packing(pending, queue, item, balance)
    }

    constructor ()
      ensures Now() == Packing([], [], map[], map[]) && list == []
    {
      list, queue, pending, item, balance := [], [], [], map[], map[];
    }

    method Check(fromAddr: bytes, nonce: uint64) returns (ok: bool)
      ensures ok <==> Checks(list, fromAddr, nonce)
    {
      var count := 0;
      for i := 0 to |list|
        invariant count == CountFrom(list[..i], fromAddr)
        invariant forall k :: 0 <= k < i && list[k].from == fromAddr ==> list[k].nonce != nonce
      {
        assert list[..i + 1][..i] == list[..i];
        if fromAddr == list[i].from {
          if nonce == list[i].nonce {
            return false;
          }
          count := count + 1;
        }
      }
      assert list[..|list|] == list;
      return count < 50;
    }

    /** The answers of the checks of addresses and signatures are given, and the clock's reading. */
    method Add(bc: Blockchain, t: Transaction, wellFormed: bool, orderGood: bool, now: int)
      returns (r: AddResult)
      modifies this`list, bc`nonces
      ensures (r, list) == AddTo(old(bc.Now()), old(list), t, wellFormed, orderGood, now)
      ensures forall a :: NonceOf(bc.nonces, a) == NonceOf(old(bc.nonces), a)
    {
      if |list| > 1500 {
        return TooManyListed;
      }
      var ok := Verify(bc, t, wellFormed, orderGood);
      if !ok {
        return NotVerified;
      }
      ok := Check(t.from, t.nonce);
      if !ok {
        return TooManyOrDouble;
      }
      list := Push(list, t.(time := now));
      return Added;
    }

    method Verify(bc: Blockchain, t: Transaction, wellFormed: bool, orderGood: bool) returns (ok: bool)
      modifies bc`nonces
      ensures ok == Admits(old(bc.Now()), t, wellFormed, orderGood)
      ensures forall a :: NonceOf(bc.nonces, a) == NonceOf(old(bc.nonces), a)
    {
      if !wellFormed {
        return false;
      }
      var nonce := bc.GetNonce(t.from);
      if t.nonce < nonce || t.from !in bc.balances {
        return false;
      }
      var bal := bc.balances[t.from];
      var ulb := Sub64(bal, Get(bc.locks, t.from));
      if ulb < t.amount {
        return false;
      }
      if t.script != [] && (t.fee < LEAST || t.fee > ulb) {
        return false;
      }
      if t.amount < LEAST || t.amount > bal {
        return false;
      }
      return orderGood;
    }

    method Pack(bc: Blockchain, t: Transaction, n: uint64) returns (ok: bool)
      requires T.WellStored(bc.cdb) && ValidTx(t) && t.from in balance
      modifies this`pending, this`item, this`balance
      ensures var r := PackTx(bc.Now(), old(Now()), t, n); ok == r.Some? && (ok ==> Now() == r.value)
    {
      item := item[t.from := n];
      if t.script != [] {
        var e := ExecNew(bc.cdb, t.script, t.from);
        if e.Crashed? {
          return false;
        }
        if e.Refused? {
          return true;
        }
        if T.Rootless(e.mp) {
          return false;
        }
        balance := balance[t.from := SubInt64(balance[t.from], Int64(t.fee))];
      }
      pending := pending + [t];
      balance := balance[t.from := SubInt64(balance[t.from], Int64(t.amount))];
      return true;
    }

    method DecideTx(bc: Blockchain, t: Transaction, n: uint64) returns (ok: bool)
      requires T.WellStored(bc.cdb) && ValidTx(t) && t.from in balance
      modifies this`pending, this`item, this`balance, this`queue
      ensures var r := Decide(bc.Now(), old(Now()), t, n); ok == r.Some? && (ok ==> Now() == r.value)
    {
      ok := true;
      if t.nonce == n {
        if t.from !in item && balance[t.from] >= Int64(t.amount) {
          ok := Pack(bc, t, n);
        }
      } else if t.from !in item {
        item := item[t.from := n];
        queue := Push(queue, t);
      } else if t.nonce == Add64(item[t.from], 1) {
        if balance[t.from] >= Int64(t.amount) {
          ok := Pack(bc, t, t.nonce);
        }
      } else {
        queue := Push(queue, t);
      }
    }

    /** Notes the sender's free balance, unless it is zero or less than the amount. */
    method NoteBalance(bc: Blockchain, t: Transaction) returns (noted: bool)
      requires t.from !in balance
      modifies this`balance
      ensures var free := FreeBalance(bc.Now(), t.from);
              && noted == (free > 0 && free >= t.amount)
              && balance == if noted then old(balance)[t.from := Int64(free)] else old(balance)
    {
      var fromba := Sub64(Get(bc.balances, t.from), Get(bc.locks, t.from));
      if fromba <= 0 || fromba < t.amount {
        return false;
      }
      balance := balance[t.from := Int64(fromba)];
      return true;
    }

    method ConsiderTx(bc: Blockchain, t: Transaction) returns (ok: bool)
      requires T.WellStored(bc.cdb) && ValidTx(t)
      modifies this`pending, this`item, this`balance, this`queue, bc`nonces
      ensures bc.Now() == old(bc.Now()).(nonces := old(bc.nonces)[t.from := NonceOf(old(bc.nonces), t.from)])
      ensures var r := Consider(bc.Now(), old(Now()), t); ok == r.Some? && (ok ==> Now() == r.value)
    {
      var n := bc.GetNonce(t.from);
      assert NonceOf(bc.nonces, t.from) == n;
      if t.nonce < n {
        return true;
      }
      if t.from !in balance {
        var noted := NoteBalance(bc, t);
        if !noted {
          return true;
        }
      }
      ok := DecideTx(bc, t, n);
    }

    /** What a committed block leaves in the list. */
    method Filter(txs: seq<Transaction>, clock: nat -> int)
      modifies this`list
      ensures list == Filtered(old(list), txs, clock)
    {
      for i := 0 to |txs|
        invariant list == WithoutAll(old(list), txs[..i])
      {
        assert txs[..i + 1][..i] == txs[..i];
        Remove(txs[i]);
      }
      assert txs[..|txs|] == txs;
      var out, rest := TakeOut(list);
      list := PutIn(rest, out, clock);
    }

    /** The loop that pops while its count is below the length of the heap. */
    method TakeOut(h: Heap) returns (txs: seq<Transaction>, rest: Heap)
      ensures txs == Taken(h, 0) && rest == Left(h, 0)
    {
      txs, rest := [], h;
      var i := 0;
      while i < |rest|
        invariant txs + Taken(rest, i) == Taken(h, 0) && Left(rest, i) == Left(h, 0)
        decreases |rest|
      {
        assert txs + Taken(rest, i) == (txs + [rest[0]]) + Taken(Popped(rest), i + 1);
        txs, rest := txs + [rest[0]], Popped(rest);
        i := i + 1;
      }
    }

    /** The loop that puts back what is young. */
    method PutIn(h: Heap, txs: seq<Transaction>, clock: nat -> int) returns (r: Heap)
      ensures r == PutBack(h, txs, clock, 0)
    {
      r := h;
      for j := 0 to |txs|
        invariant PutBack(r, txs, clock, j) == PutBack(h, txs, clock, 0)
      {
        var tm := clock(j);
        if tm - txs[j].time < 10 {
          r := Push(r, txs[j]);
        }
      }
    }

    /** Deletes in place while going through the list. */
    method Remove(t: Transaction)
      modifies this`list
      ensures list == Without(old(list), t)
    {
      var index := 0;
      ghost var kept, rest := [], list;
      while index < |list|
        invariant index == |kept| && list == kept + rest && Removing(old(list), t, kept, rest)
        decreases |rest|
      {
        RemoveOne(old(list), t, kept, rest);
        if t.from == list[index].from && t.nonce == list[index].nonce {
          list := list[..index] + list[index + 1..];
        } else {
          kept := kept + [rest[0]];
          index := index + 1;
        }
        rest := rest[1..];
      }
    }

    /** heap.Pop. */
    method Pop() returns (t: Transaction)
      requires list != []
      modifies this`list
      ensures t == old(list)[0] && list == Popped(old(list))
    {
      t := list[0];
      list := Popped(list);
    }

    /** Fills pending from the list, puts back into the list half of what it deferred if young, and
        forgets its notes on the senders. Accounts asked for a nonce get a nonce record, which
        changes no nonce. */
    method Pendings(bc: Blockchain, clock: nat -> int) returns (ok: bool)
      requires T.WellStored(bc.cdb) && ValidTxs(PopOrder(list))
      modifies this, bc`nonces
      ensures var r := PackedRound(old(bc.Now()), old(Now()), old(list), clock);
              ok == r.Some? && (ok ==> (Now(), list) == r.value)
      ensures forall a :: NonceOf(bc.nonces, a) == NonceOf(old(bc.nonces), a)
    {
      ok := Fill(bc);
      if ok {
        var out, rest := TakeOut(queue);
        queue := rest;
        list := PutIn(list, out, clock);
        item := map[];
        balance := map[];
      }
    }

    /** The loop over what the heap pops. */
    method Fill(bc: Blockchain) returns (ok: bool)
      requires T.WellStored(bc.cdb) && ValidTxs(PopOrder(list))
      modifies this, bc`nonces
      ensures var r := PackHeap(old(bc.Now()), old(Now()), old(list));
              ok == r.Some? && (ok ==> (Now(), list) == r.value)
      ensures forall a :: NonceOf(bc.nonces, a) == NonceOf(old(bc.nonces), a)
    {
      ghost var st := bc.Now();
      ghost var whole := PackHeap(st, Now(), list);
      while |pending| < TOTAL_QUANTITY && list != []
        invariant ValidTxs(PopOrder(list)) && PackHeap(st, Now(), list) == whole
        invariant bc.Now() == st.(nonces := bc.nonces)
        invariant forall a :: NonceOf(bc.nonces, a) == NonceOf(st.nonces, a)
        decreases |list|
      {
        ghost var before := Now();
        ValidPops(list);
        var t := Pop();
        ok := ConsiderTx(bc, t);
        SameNonces(st, bc.Now(), before, t);
        if !ok {
          return false;
        }
      }
      return true;
    }
  }

  lemma SameNonces(st: State, s1: State, p: Packing, t: Transaction)
    requires T.WellStored(st.tokens) && ValidTx(t)
    requires s1 == st.(nonces := s1.nonces) && NonceOf(s1.nonces, t.from) == NonceOf(st.nonces, t.from)
    ensures Consider(s1, p, t) == Consider(st, p, t)
  {
    var n := NonceOf(st.nonces, t.from);
    if t.nonce >= n {
      if t.from in p.balance {
        SameTokens(st, s1, p, t, n);
      } else {
        SameTokens(st, s1, p.(balance := p.balance[t.from := Int64(FreeBalance(st, t.from))]), t, n);
      }
    }
  }

  lemma SameTokens(st: State, s1: State, p: Packing, t: Transaction, n: uint64)
    requires T.WellStored(st.tokens) && ValidTx(t) && s1.tokens == st.tokens && t.from in p.balance
    ensures Decide(s1, p, t, n) == Decide(st, p, t, n)
  {
    assert PackTx(s1, p, t, n) == PackTx(st, p, t, n) && PackTx(s1, p, t, t.nonce) == PackTx(st, p, t, t.nonce);
  }
}
