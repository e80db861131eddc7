/** Whole runs of the chain: rounds that pack a block from the pool and commit it, between locks
    and unlocks of balances. */
module Chain {
  import opened Bytes
  import opened Options
  import opened MapSum
  import opened Rewards
  import opened Ledger
  import opened TxHeaps
  import opened TxPool
  import opened PackingRules
  import opened Conservation
  import T = TokenExec

  /** A round with what the heap pops in it, a lock or an unlock. */
  datatype Op =
    | Round(popped: seq<Transaction>, minaddr: bytes, ds: bytes, cm: bytes)
    | LockOp(addr: bytes, amount: uint64)
    | UnlockOp(addr: bytes, amount: uint64)

  ghost predicate ValidOp(op: Op) {
    op.Round? ==> ValidTxs(op.popped)
  }

  /** What a round packs; nothing if a nil script stops the loop. */
  function Packed(st: State, op: Op): (txs: seq<Transaction>)
    requires op.Round? && T.WellStored(st.tokens) && ValidOp(op)
    ensures ValidTxs(txs) && |txs| <= TOTAL_QUANTITY
  {
    match PackAll(st, EMPTY, op.popped)
    case None => []
    case Some(p) =>
      PackedFits(st, EMPTY, op.popped);
      p.pending
  }

  /** PackBlock: the pending transactions with the rewards for the next height. */
  function PackedBlock(st: State, op: Op): Block
    requires op.Round? && T.WellStored(st.tokens) && ValidOp(op)
  {
    var txs := Packed(st, op);
    Block(Add64(st.height, 1), txs, BlockRewards(txs, op.minaddr, op.ds, op.cm, Add64(st.height, 1)))
  }

  /** None stands for a panic in packing or committing. */
  function Perform(st: State, op: Op): Option<State>
    requires T.WellStored(st.tokens) && ValidOp(op)
  {
    match op
    case Round(_, minaddr, _, _) =>
      if PackAll(st, EMPTY, op.popped) == None then None else WithBlock(st, PackedBlock(st, op), minaddr)
    case LockOp(a, n) => Some(st.(locks := Lock(st.balances, st.locks, a, n).1))
    case UnlockOp(a, n) => Some(st.(locks := Unlock(st.locks, a, n).1))
  }

  /** The transactions of s that an operation commits. */
  function Nonces(st: State, op: Op, s: bytes): seq<Transaction>
    requires T.WellStored(st.tokens) && ValidOp(op)
  {
    if op.Round? then Of(s, Packed(st, op)) else []
  }

  /** A run: op by op from st to the last state, all of them carried out. */
  ghost predicate IsRun(sts: seq<State>, ops: seq<Op>) {
    && |sts| == |ops| + 1
    && forall i :: 0 <= i < |ops| ==>
         T.WellStored(sts[i].tokens) && ValidOp(ops[i]) && Perform(sts[i], ops[i]) == Some(sts[i + 1])
  }

  /** The transactions of s committed by the first n operations of a run, in order. */
  ghost function Committed(sts: seq<State>, ops: seq<Op>, n: nat, s: bytes): seq<Transaction>
    requires IsRun(sts, ops) && n <= |ops|
  {
    if n == 0 then [] else Committed(sts, ops, n - 1, s) + Nonces(sts[n - 1], ops[n - 1], s)
  }

  // ---------------------------------------------------------------- blocks without scripts

  lemma {:induction false} NoScripts(kv: T.KV, txs: seq<Transaction>)
    requires T.WellStored(kv) && ValidTxs(txs) && forall i :: 0 <= i < |txs| ==> txs[i].script == []
    ensures RunScripts(kv, txs) == Some(kv)
  {
    if txs != [] {
      assert forall i :: 0 <= i < |txs| - 1 ==> txs[..|txs| - 1][i] == txs[i];
      NoScripts(kv, txs[..|txs| - 1]);
    }
  }

  /** A round in which no scripts are popped is carried out. */
  lemma ScriptFreeRoundSucceeds(st: State, op: Op)
    requires T.WellStored(st.tokens) && ValidOp(op) && op.Round?
    requires forall i :: 0 <= i < |op.popped| ==> op.popped[i].script == []
    ensures Perform(st, op).Some? && AllAccepted(st, op.popped)
  {
    ScriptFreeGoesThrough(st, EMPTY, op.popped);
    NoScripts(st.tokens, Packed(st, op));
  }

  // ---------------------------------------------------------------- nonces

  /** The heap pops each sender's transactions in increasing nonce order, and no script of theirs
      fails. */
  ghost predicate InOrder(st: State, op: Op)
    requires T.WellStored(st.tokens) && ValidOp(op)
  {
    op.Round? ==> Increasing(op.popped) && AllAccepted(st, op.popped)
  }

  lemma {:induction false} OfIsShorter(s: bytes, txs: seq<Transaction>)
    ensures |Of(s, txs)| <= |txs|
  {
    if txs != [] {
      OfIsShorter(s, txs[..|txs| - 1]);
    }
  }

  lemma {:induction false} NonceAfter(nonces: Amounts, txs: seq<Transaction>, s: bytes)
    ensures var mine := Of(s, txs);
            NonceOf(ApplyNonces(nonces, txs), s)
            == if mine == [] then NonceOf(nonces, s) else Add64(mine[|mine| - 1].nonce, 1)
  {
    if txs != [] {
      NonceAfter(nonces, txs[..|txs| - 1], s);
    }
  }

  lemma NoncesMoveOn(nonces: Amounts, txs: seq<Transaction>, s: bytes)
    requires Consecutive(Of(s, txs), NonceOf(nonces, s)) && NonceOf(nonces, s) + |txs| < TWO_64
    ensures NonceOf(ApplyNonces(nonces, txs), s) == NonceOf(nonces, s) + |Of(s, txs)|
  {
    NonceAfter(nonces, txs, s);
    OfIsShorter(s, txs);
    if Of(s, txs) != [] {
      AfterLast(Of(s, txs), NonceOf(nonces, s));
    }
  }

  lemma AfterLast(mine: seq<Transaction>, n: nat)
    requires mine != [] && Consecutive(mine, n) && n + |mine| < TWO_64
    ensures Add64(mine[|mine| - 1].nonce, 1) == n + |mine|
  {
    assert mine[|mine| - 1].nonce == n + |mine| - 1;
  }

  lemma RoundNonces(st: State, op: Op, st1: State, s: bytes)
    requires op.Round? && T.WellStored(st.tokens) && ValidOp(op) && Perform(st, op) == Some(st1)
    requires InOrder(st, op) && NonceOf(st.nonces, s) + TOTAL_QUANTITY < TWO_64
    ensures Consecutive(Of(s, Packed(st, op)), NonceOf(st.nonces, s)) && |Of(s, Packed(st, op))| <= TOTAL_QUANTITY
    ensures NonceOf(st1.nonces, s) == NonceOf(st.nonces, s) + |Of(s, Packed(st, op))|
  {
    PackedInLine(st, op.popped, s);
    var txs := Packed(st, op);
    OfIsShorter(s, txs);
    NoncesMoveOn(st.nonces, txs, s);
    RoundBooks(st, op, st1);
  }

  lemma ConsecutiveJoin(a: seq<Transaction>, b: seq<Transaction>, n: nat)
    requires Consecutive(a, n) && Consecutive(b, n + |a|)
    ensures Consecutive(a + b, n)
  {
  }

  /** Over any run, whatever the amounts, fees, balances and receivers: the committed nonces of an
      account run on from its first one without gap or repeat, and its nonce counts them. */
  lemma {:induction false} RunInLine(sts: seq<State>, ops: seq<Op>, n: nat, s: bytes)
    requires IsRun(sts, ops) && n <= |ops|
    requires forall i :: 0 <= i < |ops| ==> InOrder(sts[i], ops[i])
    requires NonceOf(sts[0].nonces, s) + TOTAL_QUANTITY * |ops| < TWO_64
    ensures Consecutive(Committed(sts, ops, n, s), NonceOf(sts[0].nonces, s))
    ensures NonceOf(sts[n].nonces, s) == NonceOf(sts[0].nonces, s) + |Committed(sts, ops, n, s)|
    ensures |Committed(sts, ops, n, s)| <= TOTAL_QUANTITY * n
  {
    if n > 0 {
      RunInLine(sts, ops, n - 1, s);
      var st, op := sts[n - 1], ops[n - 1];
      assert Perform(st, op) == Some(sts[n]) && InOrder(st, op);
      if op.Round? {
        RoundNonces(st, op, sts[n], s);
      }
      ConsecutiveJoin(Committed(sts, ops, n - 1, s), Nonces(st, op, s), NonceOf(sts[0].nonces, s));
    }
  }

  /** From genesis they are 1, 2, 3 and so on. */
  lemma GenesisInLine(sts: seq<State>, ops: seq<Op>, miner: bytes, n: nat, s: bytes)
    requires IsRun(sts, ops) && n <= |ops| && TOTAL_QUANTITY * |ops| + 1 < TWO_64
    requires Genesis(sts[0], miner)
    requires forall i :: 0 <= i < |ops| ==> InOrder(sts[i], ops[i])
    ensures forall i :: 0 <= i < |Committed(sts, ops, n, s)| ==> Committed(sts, ops, n, s)[i].nonce == i + 1
    ensures NonceOf(sts[n].nonces, s) == |Committed(sts, ops, n, s)| + 1
  {
    RunInLine(sts, ops, n, s);
  }

  // ---------------------------------------------------------------- locks and the money spent

  /** Everything a sender is charged in a block. */
  function Charged(s: bytes, txs: seq<Transaction>): nat {
    if txs == [] then 0
    else
      var t := txs[|txs| - 1];
      Charged(s, txs[..|txs| - 1]) + if t.from == s then t.amount + t.fee else 0
  }

  /** No reward, no payment and no script fee goes to s. */
  ghost predicate ReceivesNothing(s: bytes, first: seq<MinerTx>, txs: seq<Transaction>, minaddr: bytes) {
    && (forall i :: 0 <= i < |first| ==> first[i].recAddress != s)
    && (forall i :: 0 <= i < |txs| ==> txs[i].to != s && (txs[i].script != [] ==> minaddr != s))
  }

  lemma {:induction false} NoCredit(bal: Amounts, first: seq<MinerTx>, s: bytes)
    requires forall i :: 0 <= i < |first| ==> first[i].recAddress != s
    ensures Get(CreditAll(bal, first), s) == Get(bal, s)
  {
    if first != [] {
      NoCredit(bal, first[..|first| - 1], s);
    }
  }

  lemma {:induction false} ChargedWraps(bal: Amounts, txs: seq<Transaction>, minaddr: bytes, s: bytes)
    requires ReceivesNothing(s, [], txs, minaddr)
    ensures Same64(Get(ApplyTxs(bal, txs, minaddr), s), Get(bal, s) - Charged(s, txs))
  {
    if txs == [] {
      Same64Refl(Get(bal, s));
    } else {
      var init, t := txs[..|txs| - 1], txs[|txs| - 1];
      assert forall i :: 0 <= i < |init| ==> init[i] == txs[i];
      ChargedWraps(bal, init, minaddr, s);
      var b := Get(ApplyTxs(bal, init, minaddr), s);
      if t.from == s {
        PaidSame(b, t);
        Same64Refl(-(t.amount as int) - t.fee);
        Same64Add(b, Get(bal, s) - Charged(s, init), -(t.amount as int) - t.fee, -(t.amount as int) - t.fee);
        Same64Chain(Paid(b, t), b - t.amount - t.fee, Get(bal, s) - Charged(s, txs));
      }
    }
  }

  /** For every block and every account that receives nothing in it: it loses amounts and fees,
      modulo 2^64. It loses just that, without wrapping around, and keeps its lock if and only if
      amounts and fees together fit in its balance less its lock. */
  lemma KeepsLockIff(st: State, b: Block, minaddr: bytes, s: bytes)
    requires LockWithinBalance(st.balances, st.locks, s)
    requires ReceivesNothing(s, b.firstTx, b.txs, minaddr)
    ensures var after := Get(ApplyTxs(CreditAll(st.balances, b.firstTx), b.txs, minaddr), s);
            && Same64(after, Get(st.balances, s) - Charged(s, b.txs))
            && (after == Get(st.balances, s) - Charged(s, b.txs) && Get(st.locks, s) <= after
                <==> Charged(s, b.txs) <= Get(st.balances, s) - Get(st.locks, s))
  {
    NoCredit(st.balances, b.firstTx, s);
    ChargedWraps(CreditAll(st.balances, b.firstTx), b.txs, minaddr, s);
    var after := Get(ApplyTxs(CreditAll(st.balances, b.firstTx), b.txs, minaddr), s);
    var k: int :| after == Get(st.balances, s) - Charged(s, b.txs) + Laps(k);
  }

  lemma {:induction false} CreditsOnlyAdd(bal: Amounts, first: seq<MinerTx>, a: bytes)
    requires Sum(bal) + Total(first) < TWO_63
    ensures Get(CreditAll(bal, first), a) >= Get(bal, a)
  {
    if first != [] {
      var init, m := first[..|first| - 1], first[|first| - 1];
      CreditsOnlyAdd(bal, init, a);
      CreditAllSum(bal, init);
      SumUpdate(CreditAll(bal, init), m.recAddress, 0);
    }
  }

  /** Everybody pays somebody else, and no more in all than it has before the block. */
  ghost predicate Affordable(before: Amounts, txs: seq<Transaction>) {
    && (forall i :: 0 <= i < |txs| ==> txs[i].from != txs[i].to)
    && (forall s :: Charged(s, txs) <= Get(before, s))
  }

  lemma AffordableInit(before: Amounts, txs: seq<Transaction>)
    requires txs != [] && Affordable(before, txs)
    ensures Affordable(before, txs[..|txs| - 1])
  {
    forall s ensures Charged(s, txs[..|txs| - 1]) <= Get(before, s) {
      assert Charged(s, txs) <= Get(before, s);
    }
  }

  lemma AffordTx(b0: Amounts, t: Transaction, minaddr: bytes, have: nat)
    requires t.from != t.to && Sum(b0) < TWO_63
    requires t.amount + t.fee <= have <= Get(b0, t.from)
    ensures t.amount + t.fee <= Get(FeePaid(b0, t, minaddr), t.from)
    ensures Sum(Transfer(FeePaid(b0, t, minaddr), t)) <= Sum(b0)
    ensures forall a :: Get(Transfer(FeePaid(b0, t, minaddr), t), a)
                        >= Get(b0, a) - if a == t.from then t.amount + t.fee else 0
  {
    SumUpdate(b0, t.from, 0);
    SumUpdate(b0, minaddr, 0);
    AfterFee(b0, t, minaddr, t.from);
    FundedTx(b0, t, minaddr);
    forall a ensures Get(Transfer(FeePaid(b0, t, minaddr), t), a)
                     >= Get(b0, a) - if a == t.from then t.amount + t.fee else 0
    {
      FeesMove(b0, t, minaddr, a);
    }
  }

  /** If what each account is charged in the block fits in what it had before, every transaction is
      funded when its turn comes, and nobody ends below what it had less what it is charged. */
  lemma {:induction false} Afford(before: Amounts, bal: Amounts, txs: seq<Transaction>, minaddr: bytes)
    requires Affordable(before, txs) && Sum(bal) < TWO_63
    requires forall s :: Get(bal, s) >= Get(before, s)
    ensures Funded(bal, txs, minaddr) && Sum(ApplyTxs(bal, txs, minaddr)) <= Sum(bal)
    ensures forall s :: Get(ApplyTxs(bal, txs, minaddr), s) >= Get(before, s) - Charged(s, txs)
  {
    if txs != [] {
      var init, t := txs[..|txs| - 1], txs[|txs| - 1];
      AffordableInit(before, txs);
      Afford(before, bal, init, minaddr);
      var b0 := ApplyTxs(bal, init, minaddr);
      assert Charged(t.from, txs) <= Get(before, t.from);
      AffordTx(b0, t, minaddr, t.amount + t.fee);
      forall s ensures Get(ApplyTxs(bal, txs, minaddr), s) >= Get(before, s) - Charged(s, txs) {
        assert Get(b0, s) >= Get(before, s) - Charged(s, init);
      }
    }
  }

  // ---------------------------------------------------------------- one round

  ghost predicate Sound(st: State) {
    Healthy(st) && Circulation(st)
  }

  /** Everybody pays somebody else, and amounts and fees fit in balance less lock. */
  ghost predicate WithinFree(st: State, txs: seq<Transaction>) {
    && (forall i :: 0 <= i < |txs| ==> txs[i].from != txs[i].to)
    && (forall s :: Charged(s, txs) <= Free(st, s))
  }

  lemma RoomForRewards(st: State, first: seq<MinerTx>)
    requires Circulation(st) && Total(first) <= EpochReward((st.height + 1) / EPOCH)
    ensures Sum(st.balances) + Total(first) < TWO_63
  {
    IssuanceBound(st.height + 2);
    OneMoreHeight(st.height + 1);
  }

  lemma CommitFunded(st: State, b: Block, minaddr: bytes)
    requires Sound(st) && WithinFree(st, b.txs)
    requires Sum(st.balances) + Total(b.firstTx) < TWO_63
    ensures Funded(CreditAll(st.balances, b.firstTx), b.txs, minaddr)
    ensures Covered(ApplyTxs(CreditAll(st.balances, b.firstTx), b.txs, minaddr), st.locks)
  {
    var bal := CreditAll(st.balances, b.firstTx);
    CreditAllSum(st.balances, b.firstTx);
    forall s ensures Get(bal, s) >= Get(st.balances, s) {
      CreditsOnlyAdd(st.balances, b.firstTx, s);
    }
    forall s ensures Charged(s, b.txs) <= Get(st.balances, s) {
      assert Charged(s, b.txs) <= Free(st, s);
    }
    Afford(st.balances, bal, b.txs, minaddr);
    forall a ensures LockWithinBalance(ApplyTxs(bal, b.txs, minaddr), st.locks, a) {
      assert Charged(a, b.txs) <= Free(st, a);
    }
  }

  lemma CommitCovered(st: State, b: Block, minaddr: bytes)
    requires Sound(st) && WithinFree(st, b.txs)
    requires Total(b.firstTx) <= EpochReward((st.height + 1) / EPOCH)
    ensures Covered(ApplyTxs(CreditAll(st.balances, b.firstTx), b.txs, minaddr), st.locks)
    ensures InCirculation(st.height + 1, ApplyTxs(CreditAll(st.balances, b.firstTx), b.txs, minaddr))
  {
    RoomForRewards(st, b.firstTx);
    CommitFunded(st, b, minaddr);
    CirculationAt(st.balances, b, minaddr, st.height);
  }

  lemma BooksSound(st: State, b: Block, minaddr: bytes, st1: State)
    requires Sound(st) && WithinFree(st, b.txs) && st.height + 1 < TWO_63
    requires Total(b.firstTx) <= EpochReward((st.height + 1) / EPOCH)
    requires Books(st, b, minaddr, st1) && T.WellStored(st1.tokens)
    ensures Sound(st1) && st1.height == st.height + 1
  {
    CommitCovered(st, b, minaddr);
    NextState(st, b, minaddr, st1);
    CirculationBound(st1);
  }

  lemma RoundRewards(st: State, op: Op)
    requires op.Round? && T.WellStored(st.tokens) && ValidOp(op) && st.height + 1 < TWO_63
    ensures Total(PackedBlock(st, op).firstTx) <= EpochReward((st.height + 1) / EPOCH)
  {
    AddOne(st.height);
    ScheduledRewards(Packed(st, op), op, Add64(st.height, 1));
    assert PackedBlock(st, op).firstTx
        == BlockRewards(Packed(st, op), op.minaddr, op.ds, op.cm, Add64(st.height, 1));
  }

  lemma ScheduledRewards(txs: seq<Transaction>, op: Op, h: uint64)
    requires op.Round? && ValidTxs(txs)
    ensures Total(BlockRewards(txs, op.minaddr, op.ds, op.cm, h)) <= EpochReward(h / EPOCH)
  {
    BlockRewardsBound(txs, op.minaddr, op.ds, op.cm, h);
  }

  lemma RoundBooks(st: State, op: Op, st1: State)
    requires op.Round? && T.WellStored(st.tokens) && ValidOp(op) && Perform(st, op) == Some(st1)
    ensures Books(st, PackedBlock(st, op), op.minaddr, st1) && T.WellStored(st1.tokens)
    ensures st1.nonces == ApplyNonces(st.nonces, Packed(st, op))
  {
    BlockBooks(st, PackedBlock(st, op), op.minaddr);
  }

  /** A round that is carried out with amounts and fees within what is free keeps everything: locks
      stay covered and the circulation bound holds. */
  lemma RoundKeeps(st: State, op: Op, st1: State)
    requires Sound(st) && st.height + 1 < TWO_63 && op.Round? && ValidOp(op)
    requires WithinFree(st, Packed(st, op)) && Perform(st, op) == Some(st1)
    ensures Sound(st1) && st1.height == st.height + 1
  {
    RoundRewards(st, op);
    RoundBooks(st, op, st1);
    BooksSound(st, PackedBlock(st, op), op.minaddr, st1);
  }

  lemma {:induction false} FeelessCharged(s: bytes, txs: seq<Transaction>)
    requires forall i :: 0 <= i < |txs| ==> txs[i].fee == 0
    ensures Charged(s, txs) == Spent(s, txs)
  {
    if txs != [] {
      FeelessCharged(s, txs[..|txs| - 1]);
    }
  }

  /** Without fees the packing loop sees to that itself. */
  lemma FeelessRoundFits(st: State, op: Op)
    requires Healthy(st) && op.Round? && ValidOp(op)
    requires forall i :: 0 <= i < |op.popped| ==> Small(op.popped[i])
    requires forall i :: 0 <= i < |Packed(st, op)| ==> Packed(st, op)[i].fee == 0
    requires forall i :: 0 <= i < |Packed(st, op)| ==> Packed(st, op)[i].from != Packed(st, op)[i].to
    ensures WithinFree(st, Packed(st, op))
  {
    var txs := Packed(st, op);
    forall s ensures Charged(s, txs) <= Free(st, s) {
      FeelessCharged(s, txs);
      FreeIs(st, s);
      if PackAll(st, EMPTY, op.popped).Some? {
        PackedWithinFree(st, op.popped, s);
      }
    }
  }

  // ---------------------------------------------------------------- runs

  ghost predicate OpWithinFree(st: State, op: Op)
    requires T.WellStored(st.tokens) && ValidOp(op)
  {
    op.Round? ==> WithinFree(st, Packed(st, op))
  }

  lemma PerformKeeps(st: State, op: Op, st1: State)
    requires Sound(st) && st.height + 1 < TWO_63 && ValidOp(op)
    requires OpWithinFree(st, op) && Perform(st, op) == Some(st1)
    ensures Sound(st1) && st1.height <= st.height + 1
  {
    match op {
      case Round(_, _, _, _) =>
        RoundKeeps(st, op, st1);
      case LockOp(a, n) =>
        LockIff(st.balances, st.locks, a, n);
      case UnlockOp(a, n) =>
        LockIff(st.balances, st.locks, a, n);
    }
  }

  lemma GenesisIsSound(st: State, miner: bytes)
    requires Genesis(st, miner)
    ensures Sound(st)
  {
    GenesisCirculation(st, miner);
    CirculationBound(st);
    forall a ensures LockWithinBalance(st.balances, st.locks, a) {
    }
  }

  lemma SoundStep(sts: seq<State>, ops: seq<Op>, i: nat)
    requires IsRun(sts, ops) && i < |ops| && OpWithinFree(sts[i], ops[i])
    requires Sound(sts[i]) && sts[i].height + 1 < TWO_63
    ensures Sound(sts[i + 1]) && sts[i + 1].height <= sts[i].height + 1
  {
    assert Perform(sts[i], ops[i]) == Some(sts[i + 1]);
    PerformKeeps(sts[i], ops[i], sts[i + 1]);
  }

  /** Over any run from genesis, scripts included, whose packed amounts and fees fit in what is
      free: every state is sound, so locks stay covered and no amount reaches 2^63. */
  lemma {:induction false} RunIsSound(sts: seq<State>, ops: seq<Op>, miner: bytes, n: nat)
    requires IsRun(sts, ops) && n <= |ops| && |ops| + 2 < TWO_63
    requires Genesis(sts[0], miner)
    requires forall i :: 0 <= i < |ops| ==> OpWithinFree(sts[i], ops[i])
    ensures Sound(sts[n]) && sts[n].height <= 1 + n
  {
    if n == 0 {
      GenesisIsSound(sts[0], miner);
    } else {
      RunIsSound(sts, ops, miner, n - 1);
      SoundStep(sts, ops, n - 1);
    }
  }
}
