/** What the packing loop guarantees about the transactions it packs. */
module PackingRules {
  import opened Bytes
  import opened Options
  import opened Rewards
  import opened Ledger
  import opened TxHeaps
  import opened TxPool
  import T = TokenExec

  const EMPTY := Packing([], [], map[], map[])

  /** The transactions of one sender, in order. */
  function Of(s: bytes, txs: seq<Transaction>): seq<Transaction> {
    if txs == [] then []
    else Of(s, txs[..|txs| - 1]) + if txs[|txs| - 1].from == s then [txs[|txs| - 1]] else []
  }

  /** The amounts a sender pays. */
  function Spent(s: bytes, txs: seq<Transaction>): nat {
    if txs == [] then 0
    else Spent(s, txs[..|txs| - 1]) + if txs[|txs| - 1].from == s then txs[|txs| - 1].amount else 0
  }

  /** The fees of its scripted transactions, which the loop sets aside. */
  function ScriptFees(s: bytes, txs: seq<Transaction>): nat {
    if txs == [] then 0
    else
      var t := txs[|txs| - 1];
      ScriptFees(s, txs[..|txs| - 1]) + if t.from == s && t.script != [] then t.fee else 0
  }

  lemma Append(s: bytes, txs: seq<Transaction>, t: Transaction)
    ensures Of(s, txs + [t]) == Of(s, txs) + if t.from == s then [t] else []
    ensures Spent(s, txs + [t]) == Spent(s, txs) + if t.from == s then t.amount else 0
    ensures ScriptFees(s, txs + [t]) == ScriptFees(s, txs) + if t.from == s && t.script != [] then t.fee else 0
  {
    assert (txs + [t])[..|txs|] == txs;
  }

  lemma {:induction false} NothingSpent(s: bytes, txs: seq<Transaction>)
    requires Of(s, txs) == []
    ensures Spent(s, txs) == 0 && ScriptFees(s, txs) == 0
  {
    if txs != [] {
      NothingSpent(s, txs[..|txs| - 1]);
    }
  }

  /** p and q agree on everything kept about s. */
  ghost predicate SameFor(s: bytes, p: Packing, q: Packing) {
    && Of(s, p.pending) == Of(s, q.pending) && Spent(s, p.pending) == Spent(s, q.pending)
    && ScriptFees(s, p.pending) == ScriptFees(s, q.pending)
    && (s in p.item <==> s in q.item) && (s in p.item ==> p.item[s] == q.item[s])
    && (s in p.balance <==> s in q.balance) && (s in p.balance ==> p.balance[s] == q.balance[s])
  }

  lemma OthersSamePack(st: State, p: Packing, t: Transaction, n: uint64, s: bytes)
    requires T.WellStored(st.tokens) && ValidTx(t) && s != t.from && t.from in p.balance
    ensures PackTx(st, p, t, n).Some? ==> SameFor(s, p, PackTx(st, p, t, n).value)
  {
    Append(s, p.pending, t);
  }

  lemma OthersSameDecide(st: State, p: Packing, t: Transaction, n: uint64, s: bytes)
    requires T.WellStored(st.tokens) && ValidTx(t) && s != t.from && t.from in p.balance
    ensures Decide(st, p, t, n).Some? ==> SameFor(s, p, Decide(st, p, t, n).value)
  {
    OthersSamePack(st, p, t, t.nonce, s);
  }

  /** A transaction concerns nobody but its sender. */
  lemma OthersSame(st: State, p: Packing, t: Transaction, s: bytes)
    requires T.WellStored(st.tokens) && ValidTx(t) && s != t.from
    ensures Consider(st, p, t).Some? ==> SameFor(s, p, Consider(st, p, t).value)
  {
    var n := NonceOf(st.nonces, t.from);
    if t.from in p.balance {
      OthersSameDecide(st, p, t, n, s);
    } else {
      OthersSameDecide(st, p.(balance := p.balance[t.from := Int64(FreeBalance(st, t.from))]), t, n, s);
    }
  }

  lemma PackGrows(st: State, p: Packing, t: Transaction, n: uint64)
    requires T.WellStored(st.tokens) && ValidTx(t) && t.from in p.balance && PackTx(st, p, t, n).Some?
    ensures PackTx(st, p, t, n).value.pending in {p.pending, p.pending + [t]}
  {
  }

  lemma DecideGrows(st: State, p: Packing, t: Transaction, n: uint64)
    requires T.WellStored(st.tokens) && ValidTx(t) && t.from in p.balance && Decide(st, p, t, n).Some?
    ensures Decide(st, p, t, n).value.pending in {p.pending, p.pending + [t]}
  {
    if PackTx(st, p, t, t.nonce).Some? {
      PackGrows(st, p, t, t.nonce);
    }
  }

  lemma PendingGrows(st: State, p: Packing, t: Transaction)
    requires T.WellStored(st.tokens) && ValidTx(t) && Consider(st, p, t).Some?
    ensures Consider(st, p, t).value.pending in {p.pending, p.pending + [t]}
  {
    var n, free := NonceOf(st.nonces, t.from), FreeBalance(st, t.from);
    if t.nonce >= n && t.from in p.balance {
      DecideGrows(st, p, t, n);
    } else if t.nonce >= n && free > 0 && free >= t.amount {
      DecideGrows(st, p.(balance := p.balance[t.from := Int64(free)]), t, n);
    }
  }

  lemma {:induction false} PackedFits(st: State, p: Packing, popped: seq<Transaction>)
    requires T.WellStored(st.tokens) && ValidTxs(popped) && PackAll(st, p, popped).Some?
    requires |p.pending| <= TOTAL_QUANTITY && ValidTxs(p.pending)
    ensures ValidTxs(PackAll(st, p, popped).value.pending)
    ensures |PackAll(st, p, popped).value.pending| <= TOTAL_QUANTITY
  {
    if popped != [] {
      var init, t := popped[..|popped| - 1], popped[|popped| - 1];
      PackedFits(st, p, init);
      var q := PackAll(st, p, init).value;
      if |q.pending| < TOTAL_QUANTITY {
        PendingGrows(st, q, t);
      }
    }
  }

  /** Only a nil script stops the loop. */
  lemma {:induction false} ScriptFreeGoesThrough(st: State, p: Packing, popped: seq<Transaction>)
    requires T.WellStored(st.tokens) && ValidTxs(popped)
    requires forall i :: 0 <= i < |popped| ==> popped[i].script == []
    requires forall i :: 0 <= i < |p.pending| ==> p.pending[i].script == []
    ensures PackAll(st, p, popped).Some?
    ensures var q := PackAll(st, p, popped).value; forall i :: 0 <= i < |q.pending| ==> q.pending[i].script == []
  {
    if popped != [] {
      ScriptFreeGoesThrough(st, p, popped[..|popped| - 1]);
    }
  }

  /** p and q agree on everything but what is deferred. */
  predicate SameButQueue(p: Packing, q: Packing) {
    p.(queue := []) == q.(queue := [])
  }

  lemma QueueInDecide(st: State, p: Packing, q: Packing, t: Transaction, n: uint64)
    requires T.WellStored(st.tokens) && ValidTx(t) && t.from in p.balance && SameButQueue(p, q)
    ensures var r, s := Decide(st, p, t, n), Decide(st, q, t, n);
            (r.Some? <==> s.Some?) && (r.Some? ==> SameButQueue(r.value, s.value))
  {
  }

  lemma QueueInConsider(st: State, p: Packing, q: Packing, t: Transaction)
    requires T.WellStored(st.tokens) && ValidTx(t) && SameButQueue(p, q)
    ensures var r, s := Consider(st, p, t), Consider(st, q, t);
            (r.Some? <==> s.Some?) && (r.Some? ==> SameButQueue(r.value, s.value))
  {
    var n, note := NonceOf(st.nonces, t.from), Int64(FreeBalance(st, t.from));
    if t.from in p.balance {
      QueueInDecide(st, p, q, t, n);
    } else {
      QueueInDecide(st, p.(balance := p.balance[t.from := note]), q.(balance := q.balance[t.from := note]), t, n);
    }
  }

  /** What earlier rounds have left in the queue makes no difference to what is packed. */
  lemma {:induction false} QueueDoesNotMatter(st: State, p: Packing, q: Packing, popped: seq<Transaction>)
    requires T.WellStored(st.tokens) && ValidTxs(popped) && SameButQueue(p, q)
    ensures var r, s := PackAll(st, p, popped), PackAll(st, q, popped);
            (r.Some? <==> s.Some?) && (r.Some? ==> SameButQueue(r.value, s.value))
  {
    if popped != [] {
      var init, t := popped[..|popped| - 1], popped[|popped| - 1];
      QueueDoesNotMatter(st, p, q, init);
      var r, s := PackAll(st, p, init), PackAll(st, q, init);
      if r.Some? && |r.value.pending| < TOTAL_QUANTITY {
        QueueInConsider(st, r.value, s.value, t);
      }
    }
  }

  // ---------------------------------------------------------------- nonces

  ghost predicate Consecutive(txs: seq<Transaction>, n: nat) {
    forall i :: 0 <= i < |txs| ==> txs[i].nonce == n + i
  }

  predicate Accepted(st: State, t: Transaction)
    requires T.WellStored(st.tokens) && ValidTx(t)
  {
    t.script == [] || !ExecNew(st.tokens, t.script, t.from).Refused?
  }

  /** No popped transaction has a script that fails. */
  ghost predicate AllAccepted(st: State, popped: seq<Transaction>)
    requires T.WellStored(st.tokens) && ValidTxs(popped)
  {
    forall i :: 0 <= i < |popped| ==> Accepted(st, popped[i])
  }

  ghost predicate PoppedAbove(popped: seq<Transaction>, s: bytes, n: nat) {
    exists j :: 0 <= j < |popped| && popped[j].from == s && popped[j].nonce > n
  }

  /** What the loop maintains about one sender's nonces. */
  ghost predicate NonceInv(st: State, popped: seq<Transaction>, p: Packing, s: bytes) {
    var mine, n := Of(s, p.pending), NonceOf(st.nonces, s);
    && Consecutive(mine, n)
    && (mine != [] ==> s in p.item && p.item[s] == n + |mine| - 1)
    && (mine == [] && s in p.item ==> p.item[s] == n && PoppedAbove(popped, s, n))
  }

  lemma StillAbove(popped: seq<Transaction>, t: Transaction, s: bytes, n: nat)
    ensures PoppedAbove(popped, s, n) || (t.from == s && t.nonce > n) ==> PoppedAbove(popped + [t], s, n)
  {
    if t.from == s && t.nonce > n {
      assert (popped + [t])[|popped|] == t;
    } else if j :| 0 <= j < |popped| && popped[j].from == s && popped[j].nonce > n {
      assert (popped + [t])[j] == popped[j];
    }
  }

  lemma SameNonceInv(st: State, popped: seq<Transaction>, p: Packing, q: Packing, t: Transaction, s: bytes)
    requires NonceInv(st, popped, p, s) && SameFor(s, p, q)
    ensures NonceInv(st, popped + [t], q, s)
  {
    StillAbove(popped, t, s, NonceOf(st.nonces, s));
  }

  lemma ConsecutiveWith(txs: seq<Transaction>, t: Transaction, n: nat)
    requires Consecutive(txs, n) && t.nonce == n + |txs|
    ensures Consecutive(txs + [t], n)
  {
    forall i | 0 <= i <= |txs| ensures (txs + [t])[i].nonce == n + i {
    }
  }

  lemma EarlierAreLower(popped: seq<Transaction>, t: Transaction, n: nat)
    requires Increasing(popped + [t]) && PoppedAbove(popped, t.from, n)
    ensures t.nonce > n + 1
  {
    var j :| 0 <= j < |popped| && popped[j].from == t.from && popped[j].nonce > n;
    assert (popped + [t])[j] == popped[j] && (popped + [t])[|popped|] == t;
  }

  /** A transaction whose nonce follows the sender's item is the next one in line: had nothing
      been packed, an earlier popped transaction would have a nonce at least as high. */
  lemma NextInLine(st: State, popped: seq<Transaction>, p: Packing, t: Transaction)
    requires Increasing(popped + [t]) && NonceInv(st, popped, p, t.from) && t.from in p.item
    requires t.nonce > NonceOf(st.nonces, t.from) && t.nonce == Add64(p.item[t.from], 1)
    ensures Of(t.from, p.pending) != [] && t.nonce == NonceOf(st.nonces, t.from) + |Of(t.from, p.pending)|
  {
    if Of(t.from, p.pending) == [] {
      EarlierAreLower(popped, t, NonceOf(st.nonces, t.from));
    }
  }

  lemma SenderPacked(st: State, popped: seq<Transaction>, p: Packing, t: Transaction)
    requires T.WellStored(st.tokens) && ValidTx(t) && Accepted(st, t)
    requires NonceInv(st, popped, p, t.from) && t.from in p.balance
    requires t.nonce == NonceOf(st.nonces, t.from) + |Of(t.from, p.pending)|
    ensures var q := PackTx(st, p, t, t.nonce); q.Some? ==> NonceInv(st, popped + [t], q.value, t.from)
  {
    Append(t.from, p.pending, t);
    ConsecutiveWith(Of(t.from, p.pending), t, NonceOf(st.nonces, t.from));
  }

  lemma SenderDecided(st: State, popped: seq<Transaction>, p: Packing, t: Transaction)
    requires T.WellStored(st.tokens) && ValidTx(t) && Accepted(st, t) && Increasing(popped + [t])
    requires NonceInv(st, popped, p, t.from) && t.from in p.balance
    requires t.nonce >= NonceOf(st.nonces, t.from)
    ensures var q := Decide(st, p, t, NonceOf(st.nonces, t.from));
            q.Some? ==> NonceInv(st, popped + [t], q.value, t.from)
  {
    var s, n := t.from, NonceOf(st.nonces, t.from);
    if t.nonce == n && s !in p.item && p.balance[s] >= Int64(t.amount) {
      SenderPacked(st, popped, p, t);
    } else if t.nonce != n && s !in p.item {
      StillAbove(popped, t, s, n);
    } else if t.nonce != n && t.nonce == Add64(p.item[s], 1) && p.balance[s] >= Int64(t.amount) {
      NextInLine(st, popped, p, t);
      SenderPacked(st, popped, p, t);
    } else {
      SameNonceInv(st, popped, p, Decide(st, p, t, n).value, t, s);
    }
  }

  /** One popped transaction, packed, deferred or dropped, keeps every sender in line. */
  lemma ConsiderInLine(st: State, popped: seq<Transaction>, p: Packing, t: Transaction, s: bytes)
    requires T.WellStored(st.tokens) && ValidTx(t) && Accepted(st, t) && Increasing(popped + [t])
    requires NonceInv(st, popped, p, s) && Consider(st, p, t).Some?
    ensures NonceInv(st, popped + [t], Consider(st, p, t).value, s)
  {
    var q := Consider(st, p, t).value;
    if s != t.from {
      OthersSame(st, p, t, s);
      SameNonceInv(st, popped, p, q, t, s);
    } else if t.nonce < NonceOf(st.nonces, s) || (s !in p.balance && FreeBalance(st, s) < t.amount) {
      SameNonceInv(st, popped, p, p, t, s);
    } else if s in p.balance {
      SenderDecided(st, popped, p, t);
    } else if FreeBalance(st, s) > 0 {
      SenderDecided(st, popped, p.(balance := p.balance[s := Int64(FreeBalance(st, s))]), t);
    } else {
      SameNonceInv(st, popped, p, p, t, s);
    }
  }

  /** Whatever is popped in increasing nonces, with scripts that do not fail: each sender's packed
      nonces run on from the chain nonce without gap or repeat. Amounts, fees, balances and who
      pays whom do not matter. */
  lemma {:induction false} PackedInLine(st: State, popped: seq<Transaction>, s: bytes)
    requires T.WellStored(st.tokens) && ValidTxs(popped) && AllAccepted(st, popped) && Increasing(popped)
    requires PackAll(st, EMPTY, popped).Some?
    ensures NonceInv(st, popped, PackAll(st, EMPTY, popped).value, s)
    ensures Consecutive(Of(s, PackAll(st, EMPTY, popped).value.pending), NonceOf(st.nonces, s))
  {
    if popped != [] {
      var init, t := popped[..|popped| - 1], popped[|popped| - 1];
      assert popped == init + [t];
      PackedInLine(st, init, s);
      assert Accepted(st, t);
      var p := PackAll(st, EMPTY, init).value;
      if |p.pending| >= TOTAL_QUANTITY {
        SameNonceInv(st, init, p, p, t, s);
      } else {
        ConsiderInLine(st, init, p, t, s);
      }
    }
  }

  // ---------------------------------------------------------------- budgets

  /** Locks are covered by balances below 2^63. */
  ghost predicate Healthy(st: State) {
    && T.WellStored(st.tokens)
    && (forall a :: Get(st.balances, a) < 0x8000_0000_0000_0000)
    && Covered(st.balances, st.locks)
  }

  /** What the loop converts to int64 keeps its sign. */
  predicate Small(t: Transaction) {
    t.amount < 0x8000_0000_0000_0000 && (t.script != [] ==> t.fee < 0x8000_0000_0000_0000)
  }

  function Free(st: State, s: bytes): int {
    Get(st.balances, s) - Get(st.locks, s)
  }

  lemma FreeIs(st: State, s: bytes)
    requires Healthy(st)
    ensures 0 <= FreeBalance(st, s) == Free(st, s) == Int64(FreeBalance(st, s)) < 0x8000_0000_0000_0000
  {
    assert LockWithinBalance(st.balances, st.locks, s);
  }

  /** What the loop maintains about one sender's money. */
  ghost predicate BudgetInv(st: State, p: Packing, s: bytes) {
    && (s !in p.balance ==> Of(s, p.pending) == [])
    && (s in p.balance ==> p.balance[s] == Free(st, s) - Spent(s, p.pending) - ScriptFees(s, p.pending))
    && Spent(s, p.pending) <= Free(st, s)
  }

  lemma PackBudget(st: State, p: Packing, t: Transaction, n: uint64)
    requires Healthy(st) && ValidTx(t) && Small(t) && BudgetInv(st, p, t.from) && t.from in p.balance
    requires p.balance[t.from] >= Int64(t.amount)
    ensures PackTx(st, p, t, n).Some? ==> BudgetInv(st, PackTx(st, p, t, n).value, t.from)
  {
    Append(t.from, p.pending, t);
    FreeIs(st, t.from);
    SetAside(p.balance[t.from], t);
  }

  /** The int64 subtractions are exact. */
  lemma SetAside(b: int, t: Transaction)
    requires Small(t) && t.amount <= b < 0x8000_0000_0000_0000
    ensures Int64(t.amount) == t.amount && SubInt64(b, t.amount) == b - t.amount
    ensures t.script != [] ==> SubInt64(SubInt64(b, Int64(t.fee)), Int64(t.amount)) == b - t.fee - t.amount
  {
  }

  lemma DecideBudget(st: State, p: Packing, t: Transaction, n: uint64)
    requires Healthy(st) && ValidTx(t) && Small(t) && BudgetInv(st, p, t.from) && t.from in p.balance
    ensures Decide(st, p, t, n).Some? ==> BudgetInv(st, Decide(st, p, t, n).value, t.from)
  {
    if p.balance[t.from] >= Int64(t.amount) {
      PackBudget(st, p, t, t.nonce);
    }
  }

  lemma ConsiderBudget(st: State, p: Packing, t: Transaction, s: bytes)
    requires Healthy(st) && ValidTx(t) && Small(t) && BudgetInv(st, p, s) && Consider(st, p, t).Some?
    ensures BudgetInv(st, Consider(st, p, t).value, s)
  {
    if s != t.from {
      OthersSame(st, p, t, s);
    } else {
      FreeIs(st, s);
      NothingSpentYet(st, p, s);
      var q := if s in p.balance then p else p.(balance := p.balance[s := Int64(FreeBalance(st, s))]);
      DecideBudget(st, q, t, NonceOf(st.nonces, s));
    }
  }

  lemma NothingSpentYet(st: State, p: Packing, s: bytes)
    requires BudgetInv(st, p, s)
    ensures s !in p.balance ==> Spent(s, p.pending) == 0 && ScriptFees(s, p.pending) == 0
  {
    if s !in p.balance {
      NothingSpent(s, p.pending);
    }
  }

  /** Whatever is popped, in whatever order: the amounts packed for a sender fit in its balance
      less its lock. The fees need not. */
  lemma {:induction false} PackedWithinFree(st: State, popped: seq<Transaction>, s: bytes)
    requires Healthy(st) && ValidTxs(popped) && PackAll(st, EMPTY, popped).Some?
    requires forall i :: 0 <= i < |popped| ==> Small(popped[i])
    ensures BudgetInv(st, PackAll(st, EMPTY, popped).value, s)
    ensures Spent(s, PackAll(st, EMPTY, popped).value.pending) <= Get(st.balances, s) - Get(st.locks, s)
  {
    if popped == [] {
      FreeIs(st, s);
    } else {
      PackedWithinFree(st, popped[..|popped| - 1], s);
      var p := PackAll(st, EMPTY, popped[..|popped| - 1]).value;
      if |p.pending| < TOTAL_QUANTITY {
        ConsiderBudget(st, p, popped[|popped| - 1], s);
      }
    }
  }

  /** The pool admits what the sender's free balance can pay, the fee of a script included, but not
      amount and fee together. */
  lemma AdmittedIsSmall(st: State, t: Transaction, wellFormed: bool, orderGood: bool)
    requires Healthy(st) && Admits(st, t, wellFormed, orderGood)
    ensures Small(t) && t.nonce >= NonceOf(st.nonces, t.from)
    ensures LEAST <= t.amount <= Get(st.balances, t.from) - Get(st.locks, t.from)
    ensures t.script != [] ==> LEAST <= t.fee <= Get(st.balances, t.from) - Get(st.locks, t.from)
  {
    FreeIs(st, t.from);
  }

  // ---------------------------------------------------------------- fees past the free balance

  lemma PackOne(st: State, t: Transaction)
    requires Healthy(st) && ValidTx(t) && t.script == [] && t.nonce == NonceOf(st.nonces, t.from)
    requires 0 < t.amount <= Get(st.balances, t.from) - Get(st.locks, t.from)
    ensures ValidTxs([t]) && PackAll(st, EMPTY, [t]).Some? && PackAll(st, EMPTY, [t]).value.pending == [t]
  {
    FreeIs(st, t.from);
    assert [t][..0] == [];
    assert PackAll(st, EMPTY, [t][..0]) == Some(EMPTY);
    var noted := EMPTY.(balance := EMPTY.balance[t.from := Int64(FreeBalance(st, t.from))]);
    assert PackAll(st, EMPTY, [t]) == Decide(st, noted, t, t.nonce);
  }

  /** An admitted payment whose fee does not fit beside its amount is packed all the same. The
      block then leaves its sender below its lock, or wrapped around above what it had. */
  lemma FeeIsNotSetAside(st: State, t: Transaction, minaddr: bytes)
    requires Healthy(st) && ValidTx(t) && t.from != t.to
    requires Admits(st, t, true, true) && t.script == [] && t.nonce == NonceOf(st.nonces, t.from)
    requires t.amount + t.fee > Get(st.balances, t.from) - Get(st.locks, t.from)
    ensures ValidTxs([t]) && PackAll(st, EMPTY, [t]).Some? && PackAll(st, EMPTY, [t]).value.pending == [t]
    ensures var before, after := Get(st.balances, t.from), Get(ApplyTxs(st.balances, [t], minaddr), t.from);
            if t.amount + t.fee <= before then after == before - t.amount - t.fee < Get(st.locks, t.from)
            else after == before - t.amount - t.fee + TWO_64 > before - t.amount
  {
    AdmittedIsSmall(st, t, true, true);
    PackOne(st, t);
    assert [t][..0] == [];
    assert ApplyTxs(st.balances, [t], minaddr) == Transfer(st.balances, t);
    PaidOut(Get(st.balances, t.from), t);
  }

  lemma PaidOut(before: uint64, t: Transaction)
    requires t.amount <= before < 0x8000_0000_0000_0000
    ensures var after := if t.fee != 0 then Sub64(Sub64(before, t.amount), t.fee) else Sub64(before, t.amount);
            after == before - t.amount - t.fee + if t.amount + t.fee <= before then 0 else TWO_64
  {
  }

  /** For instance: of 1000000, 500000 locked, amount 500000 and fee 1 leave 499999; and of 500000
      with no lock they leave 2^64 - 1. */
  lemma FeeBreaksLock(st: State, t: Transaction, minaddr: bytes)
    requires Healthy(st) && ValidTx(t) && t.from != t.to
    requires t.script == [] && t.nonce == NonceOf(st.nonces, t.from) && t.amount == 500000 && t.fee == 1
    requires Get(st.balances, t.from) == Get(st.locks, t.from) + 500000
    ensures Admits(st, t, true, true)
    ensures ValidTxs([t]) && PackAll(st, EMPTY, [t]).Some? && PackAll(st, EMPTY, [t]).value.pending == [t]
    ensures var after := Get(ApplyTxs(st.balances, [t], minaddr), t.from);
            && (Get(st.locks, t.from) == 500000 ==> after == 499999)
            && (Get(st.locks, t.from) == 0 ==> after == 0xFFFF_FFFF_FFFF_FFFF)
  {
    FreeIs(st, t.from);
    FeeIsNotSetAside(st, t, minaddr);
  }
}
