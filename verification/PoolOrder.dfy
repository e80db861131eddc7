/** What the order in which the heap pops does to the nonces that are packed: with a list in good
    order they run on from the chain nonce, and in any order the exact case in which one is missing. */
module PoolOrder {
  import opened Bytes
  import opened Options
  import opened Rewards
  import opened Ledger
  import opened TxHeaps
  import opened TxPool
  import opened PackingRules
  import T = TokenExec

  /** From a list in good order, packed nonces run on from the chain nonce. */
  lemma GoodListInLine(st: State, list: Heap, s: bytes)
    requires T.WellStored(st.tokens) && InGoodOrder(list) && ValidTxs(PopOrder(list))
    requires AllAccepted(st, PopOrder(list)) && PackHeap(st, EMPTY, list).Some?
    ensures Consecutive(Of(s, PackHeap(st, EMPTY, list).value.0.pending), NonceOf(st.nonces, s))
  {
    PopsIncreasing(list);
    PackHeapIsAll(st, EMPTY, list);
    PackedInLine(st, PopOrder(list), s);
  }

  // ---------------------------------------------------------------- gaps

  ghost predicate Payments(txs: seq<Transaction>) {
    ValidTxs(txs) && forall i :: 0 <= i < |txs| ==> txs[i].script == [] && Small(txs[i])
  }

  /** The pending list when `popped` have been popped. */
  function Pending(st: State, popped: seq<Transaction>): seq<Transaction>
    requires T.WellStored(st.tokens) && ValidTxs(popped)
  {
    match PackAll(st, EMPTY, popped)
    case None => []
    case Some(p) => p.pending
  }

  predicate Full(st: State, popped: seq<Transaction>, k: nat)
    requires T.WellStored(st.tokens) && ValidTxs(popped) && k <= |popped|
  {
    |Pending(st, popped[..k])| >= TOTAL_QUANTITY
  }

  /** A transaction of s that is not behind the chain nonce and not above the free balance. */
  predicate Eligible(st: State, t: Transaction, s: bytes) {
    t.from == s && t.nonce >= NonceOf(st.nonces, s) && 0 < Free(st, s) && t.amount <= Free(st, s)
  }

  /** The place of the first such transaction, or -1. */
  function First(st: State, popped: seq<Transaction>, s: bytes): (i: int)
    ensures i == -1 || (0 <= i < |popped| && Eligible(st, popped[i], s))
    ensures forall k :: 0 <= k < |popped| && (i == -1 || k < i) ==> !Eligible(st, popped[k], s)
  {
    if popped == [] then -1
    else
      var i := First(st, popped[..|popped| - 1], s);
      if i >= 0 then i else if Eligible(st, popped[|popped| - 1], s) then |popped| - 1 else -1
  }

  /** At j, before the block is full, comes one with the nonce after the chain nonce. */
  predicate JumpAt(st: State, popped: seq<Transaction>, s: bytes, j: nat)
    requires T.WellStored(st.tokens) && ValidTxs(popped)
  {
    && j < |popped| && Eligible(st, popped[j], s) && popped[j].nonce == NonceOf(st.nonces, s) + 1
    && !Full(st, popped, j)
  }

  ghost predicate JumpAfter(st: State, popped: seq<Transaction>, s: bytes, i: int)
    requires T.WellStored(st.tokens) && ValidTxs(popped)
  {
    exists j: nat :: i < j && JumpAt(st, popped, s, j)
  }

  lemma FirstWith(st: State, popped: seq<Transaction>, t: Transaction, s: bytes)
    ensures First(st, popped + [t], s) ==
            var i := First(st, popped, s); if i >= 0 then i else if Eligible(st, t, s) then |popped| else -1
  {
    assert (popped + [t])[..|popped|] == popped;
  }

  lemma JumpWith(st: State, popped: seq<Transaction>, t: Transaction, s: bytes, j: nat)
    requires T.WellStored(st.tokens) && ValidTxs(popped) && ValidTx(t) && ValidTxs(popped + [t])
    ensures JumpAt(st, popped + [t], s, j) <==>
            if j < |popped| then JumpAt(st, popped, s, j)
            else j == |popped| && Eligible(st, t, s) && t.nonce == NonceOf(st.nonces, s) + 1
                 && |Pending(st, popped)| < TOTAL_QUANTITY
  {
    if j < |popped| {
      assert (popped + [t])[..j] == popped[..j];
    } else {
      assert (popped + [t])[..|popped|] == popped;
    }
  }

  lemma JumpAfterWith(st: State, popped: seq<Transaction>, t: Transaction, s: bytes, i: int)
    requires T.WellStored(st.tokens) && ValidTxs(popped) && ValidTx(t) && ValidTxs(popped + [t])
    requires i < |popped|
    ensures JumpAfter(st, popped + [t], s, i) <==>
            JumpAfter(st, popped, s, i)
            || (Eligible(st, t, s) && t.nonce == NonceOf(st.nonces, s) + 1 && |Pending(st, popped)| < TOTAL_QUANTITY)
  {
    JumpWith(st, popped, t, s, |popped|);
    if JumpAfter(st, popped, s, i) {
      var j: nat :| i < j && JumpAt(st, popped, s, j);
      JumpWith(st, popped, t, s, j);
    }
    if JumpAfter(st, popped + [t], s, i) {
      var j: nat :| i < j && JumpAt(st, popped + [t], s, j);
      JumpWith(st, popped, t, s, j);
    }
  }

  /** What the loop maintains about one sender, in whatever order it pops. */
  ghost predicate GapInv(st: State, popped: seq<Transaction>, p: Packing, s: bytes)
    requires T.WellStored(st.tokens) && ValidTxs(popped)
  {
    var n, mine, i := NonceOf(st.nonces, s), Of(s, p.pending), First(st, popped, s);
    && (s in p.item <==> s in p.balance)
    && (s !in p.item ==> mine == [] && (i == -1 || Full(st, popped, i)))
    && (s in p.item ==> i >= 0 && !Full(st, popped, i) && if popped[i].nonce == n then InFront(mine, p.item[s], n)
                                                          else Deferred(st, popped, mine, p.item[s], s))
  }

  ghost predicate InFront(mine: seq<Transaction>, item: nat, n: nat) {
    mine != [] && Consecutive(mine, n) && item == n + |mine| - 1
  }

  ghost predicate Deferred(st: State, popped: seq<Transaction>, mine: seq<Transaction>, item: nat, s: bytes)
    requires T.WellStored(st.tokens) && ValidTxs(popped)
  {
    var n := NonceOf(st.nonces, s);
    && Consecutive(mine, n + 1) && item == n + |mine|
    && (mine != [] <==> JumpAfter(st, popped, s, First(st, popped, s)))
  }

  lemma FullWith(st: State, popped: seq<Transaction>, t: Transaction, k: nat)
    requires T.WellStored(st.tokens) && ValidTxs(popped) && ValidTx(t) && ValidTxs(popped + [t]) && k <= |popped|
    ensures Full(st, popped + [t], k) == Full(st, popped, k)
  {
    assert (popped + [t])[..k] == popped[..k];
  }

  /** A full block stays full. */
  lemma {:induction false} FullStays(st: State, popped: seq<Transaction>, k: nat, j: nat)
    requires T.WellStored(st.tokens) && Payments(popped) && k <= j <= |popped| && Full(st, popped, k)
    ensures Full(st, popped, j)
    decreases j
  {
    if k < j {
      FullStays(st, popped, k, j - 1);
      var init := popped[..j - 1];
      ScriptFreeGoesThrough(st, EMPTY, init);
      assert popped[..j][..j - 1] == init;
    }
  }

  /** t changes nothing for s: it is not eligible, or comes too late, or its nonce does not matter. */
  ghost predicate Idle(st: State, popped: seq<Transaction>, p: Packing, t: Transaction, s: bytes)
    requires T.WellStored(st.tokens) && ValidTxs(popped)
  {
    || !Eligible(st, t, s)
    || |Pending(st, popped)| >= TOTAL_QUANTITY
    || (s in p.item && (t.nonce != NonceOf(st.nonces, s) + 1 || Of(s, p.pending) != []))
  }

  lemma IdleKeeps(st: State, popped: seq<Transaction>, p: Packing, q: Packing, t: Transaction, s: bytes)
    requires T.WellStored(st.tokens) && ValidTxs(popped) && ValidTx(t) && ValidTxs(popped + [t])
    requires GapInv(st, popped, p, s) && SameFor(s, p, q) && Idle(st, popped, p, t, s)
    ensures GapInv(st, popped + [t], q, s)
  {
    FirstWith(st, popped, t, s);
    var i := First(st, popped, s);
    if i >= 0 {
      FullWith(st, popped, t, i);
      JumpAfterWith(st, popped, t, s, i);
    } else if Eligible(st, t, s) {
      assert (popped + [t])[..|popped|] == popped;
    }
  }

  /** The first eligible transaction of s. */
  lemma FirstOne(st: State, popped: seq<Transaction>, p: Packing, t: Transaction, s: bytes)
    requires Healthy(st) && Payments(popped + [t]) && Payments(popped)
    requires GapInv(st, popped, p, s) && BudgetInv(st, p, s) && Eligible(st, t, s) && s !in p.item
    requires PackAll(st, EMPTY, popped) == Some(p) && |p.pending| < TOTAL_QUANTITY
    ensures ValidTx(t) && Consider(st, p, t).Some? && GapInv(st, popped + [t], Consider(st, p, t).value, s)
  {
    assert (popped + [t])[|popped|] == t;
    var i := First(st, popped, s);
    assert popped[..|popped|] == popped && (popped + [t])[..|popped|] == popped;
    if i >= 0 {
      FullStays(st, popped, i, |popped|);
      assert false;
    }
    FirstWith(st, popped, t, s);
    ConsiderFirst(st, p, t, s);
    NoJumpYet(st, popped, t, s);
  }

  lemma ConsiderFirst(st: State, p: Packing, t: Transaction, s: bytes)
    requires Healthy(st) && ValidTx(t) && t.script == [] && Small(t) && Eligible(st, t, s)
    requires s !in p.item && s !in p.balance && Of(s, p.pending) == []
    ensures Consider(st, p, t).Some?
    ensures var q := Consider(st, p, t).value;
            && s in q.item && s in q.balance && q.item[s] == NonceOf(st.nonces, s)
            && Of(s, q.pending) == if t.nonce == NonceOf(st.nonces, s) then [t] else []
  {
    FreeIs(st, s);
    DecideFirst(st, p.(balance := p.balance[s := Free(st, s)]), t, s);
  }

  lemma DecideFirst(st: State, p: Packing, t: Transaction, s: bytes)
    requires Healthy(st) && ValidTx(t) && t.script == [] && Small(t) && t.from == s
    requires s !in p.item && s in p.balance && t.amount <= p.balance[s] && Of(s, p.pending) == []
    ensures Decide(st, p, t, NonceOf(st.nonces, s)).Some?
    ensures var q := Decide(st, p, t, NonceOf(st.nonces, s)).value;
            && s in q.item && s in q.balance && q.item[s] == NonceOf(st.nonces, s)
            && Of(s, q.pending) == if t.nonce == NonceOf(st.nonces, s) then [t] else []
  {
    Append(s, p.pending, t);
  }

  lemma NoJumpYet(st: State, popped: seq<Transaction>, t: Transaction, s: bytes)
    requires T.WellStored(st.tokens) && ValidTxs(popped + [t])
    ensures !JumpAfter(st, popped + [t], s, |popped|)
  {
  }

  /** A later one that is packed. */
  lemma LaterPacked(st: State, popped: seq<Transaction>, p: Packing, q: Packing, t: Transaction, s: bytes)
    requires Healthy(st) && Payments(popped + [t]) && Payments(popped)
    requires GapInv(st, popped, p, s) && Eligible(st, t, s) && s in p.item && t.nonce as int == p.item[s] as int + 1
    requires Pending(st, popped) == p.pending && |p.pending| < TOTAL_QUANTITY
    requires s in q.item && s in q.balance && q.item[s] == t.nonce && Of(s, q.pending) == Of(s, p.pending) + [t]
    ensures GapInv(st, popped + [t], q, s)
  {
    var n, mine, i := NonceOf(st.nonces, s), Of(s, p.pending), First(st, popped, s);
    FirstWith(st, popped, t, s);
    assert (popped + [t])[|popped|] == t && (popped + [t])[i] == popped[i];
    FullWith(st, popped, t, i);
    JumpAfterWith(st, popped, t, s, i);
    ConsecutiveWith(mine, t, if popped[i].nonce == n then n else n + 1);
  }

  /** t follows the item of s and fits in what is left. */
  predicate Follows(st: State, p: Packing, t: Transaction, s: bytes)
    requires s in p.item && s in p.balance
  {
    t.nonce > NonceOf(st.nonces, s) && t.nonce == Add64(p.item[s], 1) && p.balance[s] >= t.amount
  }

  /** With an item noted, only what follows it is packed. */
  ghost predicate LaterEffect(st: State, p: Packing, t: Transaction, s: bytes, q: Packing) {
    && s in p.item && s in p.balance
    && if Follows(st, p, t, s) then
         s in q.item && s in q.balance && q.item[s] == t.nonce && Of(s, q.pending) == Of(s, p.pending) + [t]
       else SameFor(s, p, q)
  }

  lemma ConsiderLater(st: State, p: Packing, t: Transaction, s: bytes)
    requires Healthy(st) && ValidTx(t) && t.script == [] && Small(t) && Eligible(st, t, s)
    requires s in p.item && s in p.balance
    ensures Consider(st, p, t).Some? && LaterEffect(st, p, t, s, Consider(st, p, t).value)
  {
    Append(s, p.pending, t);
  }

  lemma LaterOne(st: State, popped: seq<Transaction>, p: Packing, q: Packing, t: Transaction, s: bytes)
    requires Healthy(st) && Payments(popped + [t]) && Payments(popped)
    requires GapInv(st, popped, p, s) && BudgetInv(st, p, s) && Eligible(st, t, s)
    requires Pending(st, popped) == p.pending && |p.pending| < TOTAL_QUANTITY
    requires LaterEffect(st, p, t, s, q)
    ensures GapInv(st, popped + [t], q, s)
  {
    if Follows(st, p, t, s) {
      LaterPacked(st, popped, p, q, t, s);
    } else {
      LaterLeft(st, popped, p, q, t, s);
    }
  }

  lemma LaterLeft(st: State, popped: seq<Transaction>, p: Packing, q: Packing, t: Transaction, s: bytes)
    requires Healthy(st) && Payments(popped + [t]) && Payments(popped)
    requires GapInv(st, popped, p, s) && BudgetInv(st, p, s) && Eligible(st, t, s)
    requires Pending(st, popped) == p.pending && |p.pending| < TOTAL_QUANTITY
    requires LaterEffect(st, p, t, s, q) && !Follows(st, p, t, s)
    ensures GapInv(st, popped + [t], q, s)
  {
    assert (popped + [t])[|popped|] == t;
    LaterIdle(st, popped, p, t, s);
    IdleKeeps(st, popped, p, q, t, s);
  }

  lemma NothingPacked(st: State, popped: seq<Transaction>, p: Packing, s: bytes)
    requires T.WellStored(st.tokens) && ValidTxs(popped)
    requires GapInv(st, popped, p, s) && BudgetInv(st, p, s) && s in p.item && Of(s, p.pending) == []
    ensures p.item[s] == NonceOf(st.nonces, s) && p.balance[s] == Free(st, s)
  {
    NothingSpent(s, p.pending);
  }

  lemma LaterIdle(st: State, popped: seq<Transaction>, p: Packing, t: Transaction, s: bytes)
    requires T.WellStored(st.tokens) && ValidTxs(popped)
    requires GapInv(st, popped, p, s) && BudgetInv(st, p, s) && Eligible(st, t, s) && s in p.item
    requires !Follows(st, p, t, s)
    ensures Idle(st, popped, p, t, s)
  {
    if Of(s, p.pending) == [] && t.nonce == NonceOf(st.nonces, s) + 1 {
      NothingPacked(st, popped, p, s);
    }
  }

  lemma ConsiderGap(st: State, popped: seq<Transaction>, p: Packing, t: Transaction, s: bytes)
    requires Healthy(st) && Payments(popped + [t]) && Payments(popped)
    requires GapInv(st, popped, p, s) && BudgetInv(st, p, s)
    requires PackAll(st, EMPTY, popped) == Some(p) && |p.pending| < TOTAL_QUANTITY
    ensures ValidTx(t) && Consider(st, p, t).Some? && GapInv(st, popped + [t], Consider(st, p, t).value, s)
  {
    assert (popped + [t])[|popped|] == t;
    if Eligible(st, t, s) {
      if s in p.item {
        ConsiderLater(st, p, t, s);
        LaterOne(st, popped, p, Consider(st, p, t).value, t, s);
      } else {
        FirstOne(st, popped, p, t, s);
      }
    } else {
      NotEligible(st, p, t, s);
      IdleKeeps(st, popped, p, Consider(st, p, t).value, t, s);
    }
  }

  /** A transaction that is not eligible changes nothing. */
  lemma NotEligible(st: State, p: Packing, t: Transaction, s: bytes)
    requires Healthy(st) && ValidTx(t) && t.script == [] && Small(t) && !Eligible(st, t, s)
    requires BudgetInv(st, p, s) && (s in p.item <==> s in p.balance) && (s in p.balance ==> 0 < Free(st, s))
    ensures Consider(st, p, t).Some? && SameFor(s, p, Consider(st, p, t).value)
  {
    if t.from != s {
      OthersSame(st, p, t, s);
    } else {
      FreeIs(st, s);
    }
  }

  /** What holds once `popped` has been popped. */
  ghost predicate GapDone(st: State, popped: seq<Transaction>, s: bytes)
    requires T.WellStored(st.tokens) && ValidTxs(popped)
  {
    PackAll(st, EMPTY, popped).Some? && GapInv(st, popped, PackAll(st, EMPTY, popped).value, s)
  }

  lemma {:induction false} GapKept(st: State, popped: seq<Transaction>, s: bytes)
    requires Healthy(st) && Payments(popped)
    ensures GapDone(st, popped, s)
  {
    if popped == [] {
      assert PackAll(st, EMPTY, []) == Some(EMPTY);
    } else {
      var init, t := popped[..|popped| - 1], popped[|popped| - 1];
      assert popped == init + [t];
      GapKept(st, init, s);
      GapNext(st, init, t, s);
    }
  }

  lemma GapNext(st: State, popped: seq<Transaction>, t: Transaction, s: bytes)
    requires Healthy(st) && Payments(popped + [t]) && Payments(popped) && GapDone(st, popped, s)
    ensures GapDone(st, popped + [t], s)
  {
    ScriptFreeGoesThrough(st, EMPTY, popped + [t]);
    PackedWithinFree(st, popped, s);
    var p := PackAll(st, EMPTY, popped).value;
    PackNext(st, popped, p, t);
    if |p.pending| < TOTAL_QUANTITY {
      ConsiderGap(st, popped, p, t, s);
    } else {
      assert SameFor(s, p, p) && Idle(st, popped, p, t, s);
      IdleKeeps(st, popped, p, p, t, s);
    }
  }

  lemma PackNext(st: State, popped: seq<Transaction>, p: Packing, t: Transaction)
    requires T.WellStored(st.tokens) && ValidTxs(popped) && ValidTx(t) && ValidTxs(popped + [t])
    requires PackAll(st, EMPTY, popped) == Some(p)
    ensures PackAll(st, EMPTY, popped + [t]) == if |p.pending| >= TOTAL_QUANTITY then Some(p) else Consider(st, p, t)
  {
    assert (popped + [t])[..|popped|] == popped;
  }

  /** For payments popped in any order: the packed nonces of s do not run on from the chain nonce if
      and only if its first eligible transaction is ahead of the chain nonce and, before the block is
      full, one with the nonce after the chain nonce comes later. */
  lemma GapIff(st: State, popped: seq<Transaction>, s: bytes)
    requires Healthy(st) && Payments(popped)
    ensures !Consecutive(Of(s, Pending(st, popped)), NonceOf(st.nonces, s)) <==>
            exists i: nat, j: nat :: i < j && i == First(st, popped, s)
              && popped[i].nonce > NonceOf(st.nonces, s) && JumpAt(st, popped, s, j)
  {
    GapKept(st, popped, s);
    var n, mine, i := NonceOf(st.nonces, s), Of(s, Pending(st, popped)), First(st, popped, s);
    if i >= 0 && popped[i].nonce > n && JumpAfter(st, popped, s, i) {
      var j: nat :| i < j && JumpAt(st, popped, s, j);
      if Full(st, popped, i) {
        FullStays(st, popped, i, j);
        assert false;
      }
      assert mine != [] && mine[0].nonce == n + 1;
    }
  }

  // ---------------------------------------------------------------- how it comes about

  lemma {:induction false} PendingIsShorter(st: State, popped: seq<Transaction>)
    requires T.WellStored(st.tokens) && Payments(popped)
    ensures |Pending(st, popped)| <= |popped|
  {
    ScriptFreeGoesThrough(st, EMPTY, popped);
    if popped != [] {
      var init, t := popped[..|popped| - 1], popped[|popped| - 1];
      ScriptFreeGoesThrough(st, EMPTY, init);
      PendingIsShorter(st, init);
      var p := PackAll(st, EMPTY, init).value;
      if |p.pending| < TOTAL_QUANTITY {
        PendingGrows(st, p, t);
      }
    }
  }

  /** A sender's nonces 3 and 2, added against their order with two transactions of others between
      them, go through the heap as they came. */
  lemma HeapKeepsWrongOrder(x: Transaction, b: Transaction, c: Transaction, y: Transaction)
    requires x.from == y.from && b.from != x.from && c.from != x.from && b.from != c.from
    requires x.nonce == 3 && y.nonce == 2 && x.time < b.time < c.time < y.time
    ensures Cycle(x, b, y)
    ensures Push(Push(Push(Push([], x), b), c), y) == [x, b, c, y]
    ensures PopOrder([x, b, c, y]) == [x, b, c, y]
  {
    assert Push([], x) == [x];
    assert Push([x], b) == [x, b];
    assert Push([x, b], c) == [x, b, c];
    assert Push([x, b, c], y) == [x, b, c, y];
    PopsAsItCame(x, b, c, y);
  }

  lemma PopsAsItCame(x: Transaction, b: Transaction, c: Transaction, y: Transaction)
    requires x.from == y.from && b.from != x.from && c.from != x.from && b.from != c.from
    requires x.nonce == 3 && y.nonce == 2 && x.time < b.time < c.time < y.time
    ensures PopOrder([x, b, c, y]) == [x, b, c, y]
  {
    assert Swap([x, b, c, y], 0, 3)[..3] == [y, b, c];
    assert Child([y, b, c], 0) == 1 && Swap([y, b, c], 0, 1) == [b, y, c];
    assert Down([b, y, c], 1) == [b, y, c] && Down([y, b, c], 0) == [b, y, c];
    assert Popped([x, b, c, y]) == [b, y, c];
    LastThreePop(b, y, c);
  }

  lemma LastThreePop(b: Transaction, y: Transaction, c: Transaction)
    requires c.from != y.from && c.time < y.time
    ensures PopOrder([b, y, c]) == [b, c, y]
  {
    assert Swap([b, y, c], 0, 2)[..2] == [c, y];
    assert Popped([b, y, c]) == [c, y];
    assert Swap([c, y], 0, 1)[..1] == [y];
    assert Popped([c, y]) == [y];
    assert PopOrder([y]) == [y] && PopOrder([c, y]) == [c, y];
  }

  /** Transactions of one second keep their places where they can: a new one does not pass an older one of
      the same time, and of two below a later one the left one comes up first. */
  lemma TiesStay(a: Transaction, b: Transaction, c: Transaction, d: Transaction)
    requires a.time < b.time == c.time < d.time
    requires a.from != b.from && a.from != c.from && a.from != d.from
    requires b.from != c.from && b.from != d.from && c.from != d.from
    ensures Push([b], c) == [b, c] && Push([c], b) == [c, b]
    ensures PopOrder([a, b, c, d]) == [a, b, c, d] && PopOrder([a, c, b, d]) == [a, c, b, d]
  {
    assert [b] + [c] == [b, c] && [c] + [b] == [c, b];
    LeftComesUp(a, b, c, d);
    LeftComesUp(a, c, b, d);
  }

  lemma LeftComesUp(a: Transaction, b: Transaction, c: Transaction, d: Transaction)
    requires b.time == c.time < d.time && b.from != c.from && b.from != d.from && c.from != d.from
    ensures PopOrder([a, b, c, d]) == [a, b, c, d]
  {
    assert Swap([a, b, c, d], 0, 3)[..3] == [d, b, c];
    assert Child([d, b, c], 0) == 1 && Swap([d, b, c], 0, 1) == [b, d, c];
    assert Down([d, b, c], 0) == Down([b, d, c], 1) == [b, d, c];
    assert Popped([a, b, c, d]) == [b, d, c];
    assert Swap([b, d, c], 0, 2)[..2] == [c, d];
    assert Popped([b, d, c]) == [c, d];
    assert Swap([c, d], 0, 1)[..1] == [d];
    assert Popped([c, d]) == [d];
    assert PopOrder([d]) == [d] && PopOrder([c, d]) == [c, d];
  }

  /** At chain nonce 1 the later one is packed, with nonce 1 missing before it. */
  lemma WrongOrderLeavesGap(st: State, x: Transaction, b: Transaction, c: Transaction, y: Transaction)
    requires Healthy(st) && Payments([x, b, c, y])
    requires x.from == y.from && x.nonce == 3 && y.nonce == 2 && NonceOf(st.nonces, x.from) == 1
    requires Eligible(st, x, x.from) && Eligible(st, y, x.from)
    ensures !Consecutive(Of(x.from, Pending(st, [x, b, c, y])), 1)
  {
    var popped := [x, b, c, y];
    assert popped[..3] == [x, b, c] && popped[0] == x;
    assert Payments(popped[..3]);
    PendingIsShorter(st, popped[..3]);
    assert First(st, popped, x.from) == 0;
    assert JumpAt(st, popped, x.from, 3);
    GapIff(st, popped, x.from);
  }

  /** Increasing order is not enough when a script fails: its sender's item moves on though nothing
      is packed, and the next nonce is packed without it. */
  lemma RefusedScriptLeavesGap(st: State, t: Transaction, u: Transaction)
    requires Healthy(st) && ValidTx(t) && ValidTx(u) && u.script == [] && Small(t) && Small(u)
    requires Eligible(st, t, t.from) && Eligible(st, u, t.from)
    requires t.nonce == NonceOf(st.nonces, t.from) && u.nonce as int == t.nonce as int + 1
    requires !Accepted(st, t)
    ensures Increasing([t, u]) && ValidTxs([t, u]) && PackAll(st, EMPTY, [t, u]).Some?
    ensures PackAll(st, EMPTY, [t, u]).value.pending == [u]
  {
    assert [t, u][..1] == [t] && [t][..0] == [];
    assert PackAll(st, EMPTY, [t][..0]) == Some(EMPTY);
    RefusedAlone(st, t);
    var p := Consider(st, EMPTY, t).value;
    assert PackAll(st, EMPTY, [t]) == Some(p);
    ThenPacked(st, p, u);
    assert PackAll(st, EMPTY, [t, u]) == Consider(st, p, u);
  }

  lemma RefusedAlone(st: State, t: Transaction)
    requires Healthy(st) && ValidTx(t) && Small(t) && !Accepted(st, t)
    requires Eligible(st, t, t.from) && t.nonce == NonceOf(st.nonces, t.from)
    ensures Consider(st, EMPTY, t) == Some(Packing([], [], map[t.from := t.nonce], map[t.from := Free(st, t.from)]))
  {
    FreeIs(st, t.from);
  }

  lemma ThenPacked(st: State, p: Packing, u: Transaction)
    requires Healthy(st) && ValidTx(u) && u.script == [] && Small(u) && Eligible(st, u, u.from)
    requires u.from in p.item && u.from in p.balance && p.balance[u.from] == Free(st, u.from) && p.pending == []
    requires u.nonce as int == p.item[u.from] as int + 1 && u.nonce > NonceOf(st.nonces, u.from)
    ensures Consider(st, p, u).Some? && Consider(st, p, u).value.pending == [u]
  {
    FreeIs(st, u.from);
  }

  // ---------------------------------------------------------------- nonces on both sides of 2^63

  /** Three admitted payments of one sender at chain nonce 1, added in order: 1, 2 and 2^63, which as
      an int64 is below both. It goes to the front, 1 is dropped, and 2 is packed alone. */
  lemma HighNonceGoesFirst(st: State, a: Transaction, b: Transaction, c: Transaction)
    requires Healthy(st) && ValidTxs([a, b, c]) && a.from == b.from == c.from && NonceOf(st.nonces, a.from) == 1
    requires a.nonce == 1 && b.nonce == 2 && c.nonce == 0x8000_0000_0000_0000 && a.time < b.time < c.time
    requires Admits(st, a, true, true) && Admits(st, b, true, true) && Admits(st, c, true, true)
    requires a.script == b.script == c.script == []
    ensures Push(Push(Push([], a), b), c) == [c, b, a] && PopOrder([c, b, a]) == [c, a, b]
    ensures !Increasing([c, a, b]) && ValidTxs(PopOrder([c, b, a]))
    ensures Pending(st, PopOrder([c, b, a])) == [b]
  {
    HighNonceInFront(a, b, c);
    assert ValidTx(a) && ValidTx(b) && ValidTx(c) by {
      assert [a, b, c][0] == a && [a, b, c][1] == b && [a, b, c][2] == c;
    }
    assert [c, a, b][0] == c && [c, a, b][1] == a;
    OnlyTheSecond(st, a, b, c);
  }

  lemma HighNonceInFront(a: Transaction, b: Transaction, c: Transaction)
    requires a.from == b.from == c.from && a.nonce == 1 && b.nonce == 2 && c.nonce == 0x8000_0000_0000_0000
    ensures Push(Push(Push([], a), b), c) == [c, b, a] && PopOrder([c, b, a]) == [c, a, b]
  {
    assert Push([], a) == [a];
    assert Push([a], b) == [a, b];
    assert Push([a, b], c) == [c, b, a];
    assert Swap([c, b, a], 0, 2)[..2] == [a, b];
    assert Popped([c, b, a]) == [a, b];
    assert Swap([a, b], 0, 1)[..1] == [b];
    assert Popped([a, b]) == [b];
    assert PopOrder([b]) == [b] && PopOrder([a, b]) == [a, b];
  }

  lemma OnlyTheSecond(st: State, a: Transaction, b: Transaction, c: Transaction)
    requires Healthy(st) && ValidTx(a) && ValidTx(b) && ValidTx(c) && ValidTxs([c, a, b])
    requires a.from == b.from == c.from && NonceOf(st.nonces, a.from) == 1
    requires a.nonce == 1 && b.nonce == 2 && c.nonce > 2
    requires Admits(st, a, true, true) && Admits(st, b, true, true) && Admits(st, c, true, true)
    requires a.script == b.script == c.script == []
    ensures Pending(st, [c, a, b]) == [b]
  {
    var s := a.from;
    FreeIs(st, s);
    AdmittedIsSmall(st, b, true, true);
    var p := Packing([], Push([], c), map[s := 1], map[s := Free(st, s)]);
    assert [c, a, b][..2] == [c, a] && [c, a][..1] == [c] && [c][..0] == [];
    assert PackAll(st, EMPTY, [c][..0]) == Some(EMPTY);
    assert Consider(st, EMPTY, c) == Some(p);
    assert PackAll(st, EMPTY, [c]) == Some(p);
    assert Consider(st, p, a) == Some(p);
    assert PackAll(st, EMPTY, [c, a]) == Some(p);
    ThenPacked(st, p, b);
    assert PackAll(st, EMPTY, [c, a, b]) == Consider(st, p, b);
  }

  // ---------------------------------------------------------------- deleting from a heap

  /** Ten transactions by time, which is how the heap takes them. */
  ghost predicate ByRank(t: seq<Transaction>) {
    |t| == 10 && forall i, j :: 0 <= i < 10 && 0 <= j < 10 ==> (Less(t[i], t[j]) <==> i < j)
  }

  lemma Sink(h: Heap, j: nat, g: Heap, k: nat)
    requires |h| >= 2 && j == Child(h, 0) && Less(h[j], h[0]) && g == Swap(h, 0, j)
    requires if 2 * j + 1 < |g| && Less(g[Child(g, j)], g[j]) then k == Child(g, j) && 2 * k + 1 >= |g| else k == j
    ensures Down(h, 0) == Swap(g, j, k)
  {
    assert Down(h, 0) == Down(g, j);
    if k != j {
      assert Down(g, j) == Down(Swap(g, j, k), k);
    }
  }

  lemma FirstPop(t: seq<Transaction>)
    requires ByRank(t)
    ensures Popped([t[1], t[7], t[2], t[5], t[8], t[4], t[3], t[6]]) == [t[2], t[7], t[3], t[5], t[8], t[4], t[6]]
  {
    assert Swap([t[1], t[7], t[2], t[5], t[8], t[4], t[3], t[6]], 0, 7)[..7]
        == [t[6], t[7], t[2], t[5], t[8], t[4], t[3]];
    Sink([t[6], t[7], t[2], t[5], t[8], t[4], t[3]], 2, [t[2], t[7], t[6], t[5], t[8], t[4], t[3]], 6);
  }

  lemma SecondPop(t: seq<Transaction>)
    requires ByRank(t)
    ensures Popped([t[2], t[7], t[3], t[5], t[8], t[4], t[6]]) == [t[3], t[7], t[4], t[5], t[8], t[6]]
  {
    assert Swap([t[2], t[7], t[3], t[5], t[8], t[4], t[6]], 0, 6)[..6] == [t[6], t[7], t[3], t[5], t[8], t[4]];
    Sink([t[6], t[7], t[3], t[5], t[8], t[4]], 2, [t[3], t[7], t[6], t[5], t[8], t[4]], 5);
  }

  lemma ThirdPop(t: seq<Transaction>)
    requires ByRank(t)
    ensures Popped([t[3], t[7], t[4], t[5], t[8], t[6]]) == [t[4], t[7], t[6], t[5], t[8]]
  {
    assert Swap([t[3], t[7], t[4], t[5], t[8], t[6]], 0, 5)[..5] == [t[6], t[7], t[4], t[5], t[8]];
    Sink([t[6], t[7], t[4], t[5], t[8]], 2, [t[4], t[7], t[6], t[5], t[8]], 2);
  }

  lemma FourthPop(t: seq<Transaction>)
    requires ByRank(t)
    ensures Popped([t[4], t[7], t[6], t[5], t[8]]) == [t[6], t[7], t[8], t[5]]
  {
    assert Swap([t[4], t[7], t[6], t[5], t[8]], 0, 4)[..4] == [t[8], t[7], t[6], t[5]];
    Sink([t[8], t[7], t[6], t[5]], 2, [t[6], t[7], t[8], t[5]], 2);
  }

  lemma HalfOfEight(h: Heap, a: Heap, b: Heap, c: Heap, d: Heap)
    requires |h| == 8 && Popped(h) == a && Popped(a) == b && Popped(b) == c && Popped(c) == d
    ensures Left(h, 0) == d && Taken(h, 0) == [h[0], a[0], b[0], c[0]]
  {
    OneTaken(h, 0);
    OneTaken(a, 1);
    OneTaken(b, 2);
    OneTaken(c, 3);
    StopsAt(d, 4);
    FourJoined(h[0], a[0], b[0], c[0], []);
  }

  lemma StopsAt(h: Heap, i: nat)
    requires |h| <= i
    ensures Left(h, i) == h && Taken(h, i) == []
  {
  }

  lemma FourJoined(a: Transaction, b: Transaction, c: Transaction, d: Transaction, e: seq<Transaction>)
    ensures [a] + ([b] + ([c] + ([d] + e))) == [a, b, c, d] + e
    ensures [a, b, c, d] + [] == [a, b, c, d]
  {
  }

  ghost predicate Spared(list: Heap, t: Transaction) {
    forall i :: 0 <= i < |list| ==> !SameSlot(t, list[i])
  }

  lemma {:induction false} NoneGone(list: Heap, t: Transaction)
    requires Spared(list, t)
    ensures Without(list, t) == list
  {
    if list != [] {
      assert Spared(list[..|list| - 1], t);
      NoneGone(list[..|list| - 1], t);
      assert list == list[..|list| - 1] + [list[|list| - 1]];
    }
  }

  lemma LastGone(a: Heap, t: Transaction)
    ensures Without(a + [t], t) == Without(a, t)
  {
    assert (a + [t])[..|a|] == a;
  }

  lemma OneGone(list: Heap, a: Heap, t: Transaction, b: Heap)
    requires list == (a + [t]) + b && Spared(a, t) && Spared(b, t)
    ensures Without(list, t) == a + b
  {
    WithoutConcat(a + [t], b, t);
    LastGone(a, t);
    NoneGone(a, t);
    NoneGone(b, t);
  }

  ghost predicate Apart(t: seq<Transaction>) {
    forall i, j :: 0 <= i < |t| && 0 <= j < |t| && i != j ==> !SameSlot(t[i], t[j])
  }

  lemma WithoutTwo(list: Heap, x: Transaction, y: Transaction)
    ensures WithoutAll(list, [x, y]) == Without(Without(list, x), y)
  {
    assert [x, y][..1] == [x] && [x][..0] == [];
    assert WithoutAll(list, [x][..0]) == list;
    assert WithoutAll(list, [x]) == Without(list, x);
  }

  lemma FirstGone(t: seq<Transaction>, rest: Heap)
    requires |t| == 10 && Apart(t) && rest == [t[1], t[7], t[2], t[5], t[9], t[8], t[4], t[3], t[6]]
    ensures Without([t[0]] + rest, t[0]) == rest
  {
    assert ([] + [t[0]]) + rest == [t[0]] + rest && [] + rest == rest;
    OneGone([t[0]] + rest, [], t[0], rest);
  }

  lemma LastGoneToo(t: seq<Transaction>, a: Heap, b: Heap)
    requires |t| == 10 && Apart(t) && a == [t[1], t[7], t[2], t[5]] && b == [t[8], t[4], t[3], t[6]]
    ensures Without((a + [t[9]]) + b, t[9]) == a + b
  {
    OneGone((a + [t[9]]) + b, a, t[9], b);
  }

  lemma TwoGone(t: seq<Transaction>, list: Heap)
    requires |t| == 10 && Apart(t) && list == [t[0], t[1], t[7], t[2], t[5], t[9], t[8], t[4], t[3], t[6]]
    ensures WithoutAll(list, [t[0], t[9]]) == [t[1], t[7], t[2], t[5], t[8], t[4], t[3], t[6]]
  {
    var a, b := [t[1], t[7], t[2], t[5]], [t[8], t[4], t[3], t[6]];
    var rest := [t[1], t[7], t[2], t[5], t[9], t[8], t[4], t[3], t[6]];
    WithoutTwo(list, t[0], t[9]);
    assert list == [t[0]] + rest && rest == (a + [t[9]]) + b;
    FirstGone(t, rest);
    LastGoneToo(t, a, b);
  }

  lemma {:induction false} OldStayOut(h: Heap, txs: seq<Transaction>, clock: nat -> int, j: nat)
    requires j <= |txs| && forall k :: j <= k < |txs| ==> clock(k) - txs[k].time >= 10
    ensures PutBack(h, txs, clock, j) == h
    decreases |txs| - j
  {
    if j < |txs| {
      OldStayOut(h, txs, clock, j + 1);
    }
  }

  lemma TimelyRanks(t: seq<Transaction>, list: Heap)
    requires Rising(t) && InGoodOrder(list) && forall i :: 0 <= i < 10 ==> t[i] in list
    ensures ByRank(t) && Apart(t)
    ensures forall i, j :: 0 <= i < j < 10 && t[i].from == t[j].from ==> t[i].nonce < t[j].nonce
  {
    forall i, j | 0 <= i < 10 && 0 <= j < 10 ensures Less(t[i], t[j]) <==> i < j {
      ByTimeOnly(list, t[i], t[j]);
    }
    forall i, j | 0 <= i < 10 && 0 <= j < 10 && i != j ensures !SameSlot(t[i], t[j]) {
      assert t[i] in multiset(list) && t[j] in multiset(list);
    }
    forall i, j | 0 <= i < j < 10 && t[i].from == t[j].from ensures t[i].nonce < t[j].nonce {
      assert Less(t[i], t[j]) && SameSide(t[i], t[j]) && !SameSlot(t[i], t[j]);
    }
  }

  lemma ByTimeOnly(list: Heap, x: Transaction, y: Transaction)
    requires Timely(list) && x in list && y in list
    ensures Less(x, y) <==> x.time < y.time
  {
    var i :| 0 <= i < |list| && list[i] == x;
    var j :| 0 <= j < |list| && list[j] == y;
    TimelyLess(list, i, j);
  }

  lemma HalfLeft(t: seq<Transaction>, u: Heap)
    requires ByRank(t) && u == [t[1], t[7], t[2], t[5], t[8], t[4], t[3], t[6]]
    ensures Left(u, 0) == [t[6], t[7], t[8], t[5]] && Taken(u, 0) == [t[1], t[2], t[3], t[4]]
  {
    FirstPop(t);
    SecondPop(t);
    ThirdPop(t);
    FourthPop(t);
    HalfOfEight(u, [t[2], t[7], t[3], t[5], t[8], t[4], t[6]], [t[3], t[7], t[4], t[5], t[8], t[6]],
                [t[4], t[7], t[6], t[5], t[8]], [t[6], t[7], t[8], t[5]]);
  }

  lemma RanksFiltered(t: seq<Transaction>, list: Heap, clock: nat -> int)
    requires ByRank(t) && Apart(t) && list == [t[0], t[1], t[7], t[2], t[5], t[9], t[8], t[4], t[3], t[6]]
    requires forall i :: 0 <= i < 4 ==> clock(i) - t[i + 1].time >= 10
    ensures Filtered(list, [t[0], t[9]], clock) == [t[6], t[7], t[8], t[5]]
  {
    TwoGone(t, list);
    var u := [t[1], t[7], t[2], t[5], t[8], t[4], t[3], t[6]];
    HalfLeft(t, u);
    OldStayOut(Left(u, 0), Taken(u, 0), clock, 0);
  }

  ghost predicate Rising(t: seq<Transaction>) {
    |t| == 10 && forall i, j :: 0 <= i < j < 10 ==> t[i].time < t[j].time
  }

  /** Whenever the clock is read, they are all ten seconds old. */
  ghost predicate AllOld(t: seq<Transaction>, clock: nat -> int) {
    forall i, k :: 0 <= i < 10 && 0 <= k < |t| ==> clock(i) - t[k].time >= 10
  }

  lemma AllTen(t: seq<Transaction>, list: Heap)
    requires |t| == 10 && list == [t[0], t[1], t[7], t[2], t[5], t[9], t[8], t[4], t[3], t[6]]
    ensures forall i :: 0 <= i < 10 ==> t[i] in list
  {
    assert t[0] in list && t[1] in list && t[2] in list && t[3] in list && t[4] in list;
    assert t[5] in list && t[6] in list && t[7] in list && t[8] in list && t[9] in list;
  }

  lemma HigherFirst(t: seq<Transaction>, h: Heap)
    requires |t| == 10 && h == [t[6], t[7], t[8], t[5]] && t[5].from == t[6].from && t[5].nonce < t[6].nonce
    ensures PopOrder(h)[0] == t[6] && !Increasing(PopOrder(h))
  {
    assert h[3] == t[5];
    FrontBeforeMember(h, t[5]);
  }

  lemma FourAreOld(t: seq<Transaction>, clock: nat -> int)
    requires |t| == 10 && AllOld(t, clock)
    ensures forall i :: 0 <= i < 4 ==> clock(i) - t[i + 1].time >= 10
  {
  }

  /** Nonces of one sender grow, on one side of 2^63. */
  ghost predicate NoncesRise(t: seq<Transaction>) {
    forall i, j :: 0 <= i < j < |t| && t[i].from == t[j].from ==> t[i].nonce < t[j].nonce && SameSide(t[i], t[j])
  }

  /** Number k of the list below. */
  function Rank(k: nat): (r: nat)
    requires k < 10
    ensures r < 10
  {
    [0, 1, 7, 2, 5, 9, 8, 4, 3, 6][k]
  }

  lemma RanksDiffer(i: nat, j: nat)
    requires i < j < 10
    ensures Rank(i) != Rank(j)
  {
  }

  lemma TenAreOrdered(t: seq<Transaction>, list: Heap)
    requires Rising(t) && |list| == 10 && forall k :: 0 <= k < 10 ==> list[k] == t[Rank(k)]
    ensures Ordered(list)
  {
    forall k: nat | 0 < k < 10 ensures After(list, Parent(k), k) {
      assert Rank(Parent(k)) < Rank(k);
    }
  }

  lemma TenAreTimely(t: seq<Transaction>, list: Heap)
    requires Rising(t) && NoncesRise(t) && |list| == 10 && forall k :: 0 <= k < 10 ==> list[k] == t[Rank(k)]
    ensures Timely(list) && OneSided(list)
  {
    forall i, j | 0 <= i < 10 && 0 <= j < 10 && list[i].from == list[j].from
      ensures SameSide(list[i], list[j]) && (Signed(list[i]) < Signed(list[j]) ==> list[i].time < list[j].time)
    {
      var a, b := Rank(i), Rank(j);
      if a < b {
        assert t[a].nonce < t[b].nonce && SameSide(t[a], t[b]);
      } else if b < a {
        assert t[b].nonce < t[a].nonce && SameSide(t[b], t[a]);
      }
    }
    forall x, y | x in list && y in list && x.from == y.from ensures SameSide(x, y) {
      var i :| 0 <= i < 10 && list[i] == x;
      var j :| 0 <= j < 10 && list[j] == y;
      assert SameSide(list[i], list[j]);
    }
  }

  lemma TenAreDistinct(t: seq<Transaction>, list: Heap)
    requires Rising(t) && NoncesRise(t) && |list| == 10 && forall k :: 0 <= k < 10 ==> list[k] == t[Rank(k)]
    ensures Distinct(multiset(list))
  {
    forall i, j | 0 <= i < j < 10 ensures !SameSlot(list[i], list[j]) {
      RanksDiffer(i, j);
      var a, b := Rank(i), Rank(j);
      assert a < b || b < a;
    }
    ApartIsDistinct(list);
  }

  lemma {:induction false} ApartIsDistinct(s: seq<Transaction>)
    requires forall i, j :: 0 <= i < j < |s| ==> !SameSlot(s[i], s[j])
    ensures Distinct(multiset(s))
  {
    if s != [] {
      var init, t := s[..|s| - 1], s[|s| - 1];
      ApartIsDistinct(init);
      assert s == init + [t];
      assert multiset(s) == multiset(init) + multiset{t};
      forall x | x in multiset(init) ensures !SameSlot(x, t) {
        var i :| 0 <= i < |init| && init[i] == x;
        assert s[i] == x;
      }
      OneMoreDistinct(multiset(init), t);
    }
  }

  lemma OneMoreDistinct(m: multiset<Transaction>, t: Transaction)
    requires Distinct(m) && forall x :: x in m ==> !SameSlot(x, t)
    ensures Distinct(m + multiset{t})
  {
  }

  lemma TenInGoodOrder(t: seq<Transaction>, list: Heap)
    requires Rising(t) && NoncesRise(t)
    requires list == [t[0], t[1], t[7], t[2], t[5], t[9], t[8], t[4], t[3], t[6]]
    ensures InGoodOrder(list)
  {
    TenAreOrdered(t, list);
    TenAreTimely(t, list);
    TenAreDistinct(t, list);
  }

  /** A list in good order of ten transactions by time, of which a block takes the first and the last
      while the others are ten seconds old: what is left is no heap, and if the sixth and the seventh
      are one sender's, the higher nonce is popped first. */
  lemma FilterCanBreakOrder(t: seq<Transaction>, list: Heap, clock: nat -> int)
    requires Rising(t) && NoncesRise(t) && AllOld(t, clock) && t[5].from == t[6].from
    requires list == [t[0], t[1], t[7], t[2], t[5], t[9], t[8], t[4], t[3], t[6]]
    ensures InGoodOrder(list)
    ensures var after := Filtered(list, [t[0], t[9]], clock);
            && after == [t[6], t[7], t[8], t[5]]
            && PopOrder(after)[0] == t[6] && !Increasing(PopOrder(after))
  {
    TenInGoodOrder(t, list);
    AllTen(t, list);
    TimelyRanks(t, list);
    FourAreOld(t, clock);
    RanksFiltered(t, list, clock);
    HigherFirst(t, Filtered(list, [t[0], t[9]], clock));
  }

  lemma FrontBeforeMember(h: Heap, x: Transaction)
    requires h != [] && x in h && x.from == h[0].from && x.nonce < h[0].nonce
    ensures !Increasing(PopOrder(h))
  {
    PopOrderKeeps(h);
    SameMembers(PopOrder(h), h);
    var j :| 0 <= j < |h| && PopOrder(h)[j] == x;
    assert PopOrder(h)[0] == h[0];
  }
}
