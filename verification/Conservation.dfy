/** What a block does to the sum of all balances, and the bound on money in circulation. */
module Conservation {
  import opened Bytes
  import opened Options
  import opened MapSum
  import opened Rewards
  import opened Ledger
  import T = TokenExec

  /** a and b differ by a multiple of 2^64, as wrapped sums do. */
  ghost predicate Same64(a: int, b: int) {
    exists k: int :: a == b + Laps(k)
  }

  function Laps(k: int): int {
    k * 0x1_0000_0000_0000_0000
  }

  lemma Same64Add(a: int, b: int, c: int, d: int)
    requires Same64(a, b) && Same64(c, d)
    ensures Same64(a + c, b + d)
  {
    var j: int :| a == b + Laps(j);
    var k: int :| c == d + Laps(k);
    assert a + c == b + d + Laps(j + k);
  }

  lemma Same64Chain(a: int, b: int, c: int)
    requires Same64(a, b) && Same64(b, c)
    ensures Same64(a, c)
  {
    var j: int :| a == b + Laps(j);
    var k: int :| b == c + Laps(k);
    assert a == c + Laps(j + k);
  }

  lemma Same64Refl(a: int)
    ensures Same64(a, a)
  {
    assert a == a + Laps(0);
  }

  lemma Wrapped(x: int)
    ensures Same64(x % 0x1_0000_0000_0000_0000, x)
  {
    assert x % 0x1_0000_0000_0000_0000 == x + Laps(-(x / 0x1_0000_0000_0000_0000));
  }

  lemma CreditSum(bal: Amounts, to: bytes, amount: uint64)
    ensures Same64(Sum(Credit(bal, to, amount)), Sum(bal) + amount)
    ensures Sum(bal) + amount < TWO_64 ==> Sum(Credit(bal, to, amount)) == Sum(bal) + amount
  {
    var n := Get(bal, to) + amount;
    var g := Add64(Get(bal, to), amount);
    SumUpdate(bal, to, g);
    Wrapped(n);
    Same64Refl(Sum(bal) - Get(bal, to));
    Same64Add(g, n, Sum(bal) - Get(bal, to), Sum(bal) - Get(bal, to));
  }

  /** What one transaction adds to the sum of all balances besides moving them: a script's fee is
      credited to the miner, every fee is taken from a sender who is not the receiver, and a
      sender who is keeps the old balance and gets the amount on top. */
  function Leak(t: Transaction): int {
    (if t.script != [] then t.fee else 0) + if t.from == t.to then t.amount as int else -(t.fee as int)
  }

  function Leaks(txs: seq<Transaction>): int {
    if txs == [] then 0 else Leaks(txs[..|txs| - 1]) + Leak(txs[|txs| - 1])
  }

  function Paid(fb: uint64, t: Transaction): uint64 {
    if t.fee != 0 then Sub64(Sub64(fb, t.amount), t.fee) else Sub64(fb, t.amount)
  }

  lemma PaidSame(fb: uint64, t: Transaction)
    ensures Same64(Paid(fb, t), fb - t.amount - t.fee)
  {
    Wrapped(fb - t.amount);
    if t.fee != 0 {
      var a := Sub64(fb, t.amount);
      Wrapped(a - t.fee);
      Same64Refl(-(t.fee as int));
      Same64Add(a, fb - t.amount, -(t.fee as int), -(t.fee as int));
      Same64Chain(Paid(fb, t), a - t.fee, fb - t.amount - t.fee);
    }
  }

  lemma SelfTransferIs(bal: Amounts, t: Transaction)
    requires t.from == t.to
    ensures Transfer(bal, t) == bal[t.to := Add64(Get(bal, t.to), t.amount)]
  {
  }

  lemma SelfTransferSum(bal: Amounts, t: Transaction)
    requires t.from == t.to
    ensures Same64(Sum(Transfer(bal, t)), Sum(bal) + t.amount)
  {
    var tb: int, g := Get(bal, t.to), Add64(Get(bal, t.to), t.amount);
    Wrapped(tb + t.amount);
    SumUpdate(bal, t.to, g);
    SelfTransferIs(bal, t);
    Same64Refl(Sum(bal) - tb);
    Same64Add(g, tb + t.amount, Sum(bal) - tb, Sum(bal) - tb);
  }

  lemma OtherTransferSum(bal: Amounts, t: Transaction)
    requires t.from != t.to
    ensures Same64(Sum(Transfer(bal, t)), Sum(bal) - t.fee)
  {
    var fb: int, tb: int := Get(bal, t.from), Get(bal, t.to);
    var f: int, g: int := Paid(fb, t), Add64(tb, t.amount);
    var rest := Sum(bal) - fb - tb;
    assert Sum(Transfer(bal, t)) == f + g + rest by {
      SumUpdate2(bal, t.from, f, t.to, g);
    }
    Wrapped(tb + t.amount);
    PaidSame(fb, t);
    Same64Refl(rest);
    Same64Add(f, fb - t.amount - t.fee, g, tb + t.amount);
    Same64Add(f + g, fb - t.fee + tb, rest, rest);
  }

  lemma TransferSum(bal: Amounts, t: Transaction)
    ensures Same64(Sum(Transfer(bal, t)), Sum(bal) + if t.from == t.to then t.amount as int else -(t.fee as int))
  {
    if t.from == t.to {
      SelfTransferSum(bal, t);
    } else {
      OtherTransferSum(bal, t);
    }
  }

  lemma {:induction false} CreditAllSum(bal: Amounts, first: seq<MinerTx>)
    ensures Same64(Sum(CreditAll(bal, first)), Sum(bal) + Total(first))
    ensures Sum(bal) + Total(first) < TWO_64 ==> Sum(CreditAll(bal, first)) == Sum(bal) + Total(first)
  {
    if first == [] {
      Same64Refl(Sum(bal));
    } else {
      var init, m := first[..|first| - 1], first[|first| - 1];
      CreditAllSum(bal, init);
      var b0 := CreditAll(bal, init);
      CreditSum(b0, m.recAddress, m.amount);
      Same64Refl(m.amount);
      Same64Add(Sum(b0), Sum(bal) + Total(init), m.amount, m.amount);
      Same64Chain(Sum(CreditAll(bal, first)), Sum(b0) + m.amount, Sum(bal) + Total(first));
    }
  }

  lemma TxSum(bal: Amounts, t: Transaction, minaddr: bytes)
    ensures Same64(Sum(Transfer(FeePaid(bal, t, minaddr), t)), Sum(bal) + Leak(t))
  {
    var b1 := FeePaid(bal, t, minaddr);
    var fee := if t.script != [] then t.fee else 0;
    var moved := if t.from == t.to then t.amount as int else -(t.fee as int);
    if t.script != [] {
      CreditSum(bal, minaddr, t.fee);
    } else {
      Same64Refl(Sum(bal));
    }
    TransferSum(b1, t);
    Same64Refl(moved);
    Same64Add(Sum(b1), Sum(bal) + fee, moved, moved);
    Same64Chain(Sum(Transfer(b1, t)), Sum(b1) + moved, Sum(bal) + Leak(t));
  }

  lemma {:induction false} ApplyTxsSum(bal: Amounts, txs: seq<Transaction>, minaddr: bytes)
    ensures Same64(Sum(ApplyTxs(bal, txs, minaddr)), Sum(bal) + Leaks(txs))
  {
    if txs == [] {
      Same64Refl(Sum(bal));
    } else {
      var init, t := txs[..|txs| - 1], txs[|txs| - 1];
      var b0 := ApplyTxs(bal, init, minaddr);
      ApplyTxsSum(bal, init, minaddr);
      TxSum(b0, t, minaddr);
      Same64Refl(Leak(t));
      Same64Add(Sum(b0), Sum(bal) + Leaks(init), Leak(t), Leak(t));
      Same64Chain(Sum(ApplyTxs(bal, txs, minaddr)), Sum(b0) + Leak(t), Sum(bal) + Leaks(txs));
    }
  }

  /** For every block whatever, up to multiples of 2^64: the sum of all balances changes by the
      rewards and the leaks. */
  lemma BlockDelta(st: State, b: Block, minaddr: bytes)
    requires T.WellStored(st.tokens) && ValidTxs(b.txs)
    requires WithBlock(st, b, minaddr).Some?
    ensures Same64(Sum(WithBlock(st, b, minaddr).value.balances), Sum(st.balances) + Total(b.firstTx) + Leaks(b.txs))
  {
    var credited := CreditAll(st.balances, b.firstTx);
    CreditAllSum(st.balances, b.firstTx);
    ApplyTxsSum(credited, b.txs, minaddr);
    Same64Refl(Leaks(b.txs));
    Same64Add(Sum(credited), Sum(st.balances) + Total(b.firstTx), Leaks(b.txs), Leaks(b.txs));
    Same64Chain(Sum(ApplyTxs(credited, b.txs, minaddr)), Sum(credited) + Leaks(b.txs),
                Sum(st.balances) + Total(b.firstTx) + Leaks(b.txs));
  }

  // ---------------------------------------------------------------- funded blocks

  /** Each sender can pay amount and fee when its turn comes, and pays somebody else. */
  ghost predicate Funded(bal: Amounts, txs: seq<Transaction>, minaddr: bytes) {
    txs == [] ||
    var t := txs[|txs| - 1];
    && Funded(bal, txs[..|txs| - 1], minaddr)
    && t.from != t.to
    && t.amount + t.fee <= Get(FeePaid(ApplyTxs(bal, txs[..|txs| - 1], minaddr), t, minaddr), t.from)
  }

  /** Fees of transactions without a script are taken from the sender and given to nobody. */
  function Burnt(txs: seq<Transaction>): nat {
    if txs == [] then 0
    else Burnt(txs[..|txs| - 1]) + if txs[|txs| - 1].script == [] then txs[|txs| - 1].fee else 0
  }

  lemma NoWrap(a: uint64, b: uint64, c: uint64)
    requires c + b <= Add64(a, b)
    ensures a + b < TWO_64 && c <= a
  {
  }

  /** The miner's fee: if the sender is the miner itself, a fee that wrapped around would leave it
      less than the fee. */
  lemma FeeFits(bal: Amounts, t: Transaction, minaddr: bytes)
    requires Sum(bal) < TWO_63
    requires t.amount + t.fee <= Get(Credit(bal, minaddr, t.fee), t.from)
    ensures Get(bal, minaddr) + t.fee < TWO_64
    ensures t.amount <= Get(bal, t.from)
  {
    SumUpdate(bal, t.from, 0);
    SumUpdate(bal, minaddr, 0);
    if t.from == minaddr {
      NoWrap(Get(bal, minaddr), t.fee, t.amount);
    } else {
      assert Get(Credit(bal, minaddr, t.fee), t.from) == Get(bal, t.from);
    }
  }

  lemma FundedScript(bal: Amounts, t: Transaction, minaddr: bytes)
    requires t.from != t.to && Sum(bal) < TWO_63
    requires t.amount + t.fee <= Get(Credit(bal, minaddr, t.fee), t.from)
    ensures var b := Credit(bal, minaddr, t.fee);
            && Sum(b) == Sum(bal) + t.fee
            && Get(b, t.to) + t.amount < TWO_64
  {
    FeeFits(bal, t, minaddr);
    SumUpdate2(bal, t.from, 0, t.to, 0);
    var g := Get(bal, minaddr) + t.fee;
    SumUpdate(bal, minaddr, g);
    assert Credit(bal, minaddr, t.fee) == bal[minaddr := g];
    if t.to == minaddr {
      assert t.amount + t.fee <= Get(bal, t.from);
    }
  }

  /** A funded transaction is carried out exactly: no addition or subtraction wraps around,
      neither the miner's fee nor the two sides of the transfer. */
  lemma FundedTx(bal: Amounts, t: Transaction, minaddr: bytes)
    requires t.from != t.to && Sum(bal) < TWO_63
    requires t.amount + t.fee <= Get(FeePaid(bal, t, minaddr), t.from)
    ensures t.script != [] ==> Get(bal, minaddr) + t.fee < TWO_64
    ensures var b := FeePaid(bal, t, minaddr);
            && Get(b, t.to) + t.amount < TWO_64
            && Transfer(b, t) == b[t.from := Get(b, t.from) - t.amount - t.fee][t.to := Get(b, t.to) + t.amount]
    ensures var burnt := if t.script == [] then t.fee else 0;
            burnt <= Sum(bal) && Sum(Transfer(FeePaid(bal, t, minaddr), t)) == Sum(bal) - burnt
  {
    if t.script != [] {
      FeeFits(bal, t, minaddr);
      FundedScript(bal, t, minaddr);
    } else {
      SumUpdate2(bal, t.from, 0, t.to, 0);
    }
    ExactTransfer(FeePaid(bal, t, minaddr), t);
  }

  /** Account by account: the sender pays amount and fee, the receiver gets the amount, and the fee
      of a scripted transaction goes to the miner; nobody else's balance changes. */
  lemma FeesMove(bal: Amounts, t: Transaction, minaddr: bytes, a: bytes)
    requires t.from != t.to && Sum(bal) < TWO_63
    requires t.amount + t.fee <= Get(FeePaid(bal, t, minaddr), t.from)
    ensures Get(Transfer(FeePaid(bal, t, minaddr), t), a) == Get(bal, a)
              - (if a == t.from then t.amount + t.fee else 0)
              + (if a == t.to then t.amount else 0)
              + (if a == minaddr && t.script != [] then t.fee else 0)
  {
    FundedTx(bal, t, minaddr);
    var b := FeePaid(bal, t, minaddr);
    AfterFee(bal, t, minaddr, a);
    AfterFee(bal, t, minaddr, t.from);
    AfterFee(bal, t, minaddr, t.to);
    GetTwo(b, t.from, Get(b, t.from) - t.amount - t.fee, t.to, Get(b, t.to) + t.amount, a);
  }

  lemma GetTwo(b: Amounts, j: bytes, x: uint64, k: bytes, y: uint64, a: bytes)
    ensures Get(b[j := x][k := y], a) == if a == k then y else if a == j then x else Get(b, a)
  {
  }

  lemma AfterFee(bal: Amounts, t: Transaction, minaddr: bytes, a: bytes)
    requires t.script != [] ==> Get(bal, minaddr) + t.fee < TWO_64
    ensures Get(FeePaid(bal, t, minaddr), a) == Get(bal, a) + if a == minaddr && t.script != [] then t.fee else 0
  {
  }

  lemma ExactTransfer(b: Amounts, t: Transaction)
    requires t.from != t.to && t.amount + t.fee <= Get(b, t.from) && Get(b, t.to) + t.amount < TWO_64
    ensures Transfer(b, t) == b[t.from := Get(b, t.from) - t.amount - t.fee][t.to := Get(b, t.to) + t.amount]
    ensures t.fee <= Sum(b) && Sum(Transfer(b, t)) == Sum(b) - t.fee
  {
    var fb: int, tb: int := Get(b, t.from), Get(b, t.to);
    PaidExact(Get(b, t.from), t);
    SumUpdate2(b, t.from, fb - t.amount - t.fee, t.to, tb + t.amount);
  }

  lemma PaidExact(fb: uint64, t: Transaction)
    requires t.amount + t.fee <= fb
    ensures Paid(fb, t) == fb - t.amount - t.fee
  {
  }

  lemma {:induction false} FundedSum(bal: Amounts, txs: seq<Transaction>, minaddr: bytes)
    requires Funded(bal, txs, minaddr) && Sum(bal) < TWO_63
    ensures Burnt(txs) <= Sum(bal) && Sum(ApplyTxs(bal, txs, minaddr)) == Sum(bal) - Burnt(txs)
  {
    if txs != [] {
      var init, t := txs[..|txs| - 1], txs[|txs| - 1];
      FundedSum(bal, init, minaddr);
      FundedTx(ApplyTxs(bal, init, minaddr), t, minaddr);
    }
  }

  lemma {:induction false} NothingBurntIff(txs: seq<Transaction>)
    ensures Burnt(txs) == 0 <==> forall i :: 0 <= i < |txs| ==> txs[i].script != [] || txs[i].fee == 0
  {
    if txs != [] {
      var init := txs[..|txs| - 1];
      NothingBurntIff(init);
      assert forall i :: 0 <= i < |init| ==> init[i] == txs[i];
    }
  }

  /** A funded block changes the sum of all balances by its rewards less the burnt fees; so by
      exactly its rewards if and only if only scripted transactions carry a fee. */
  lemma BlockConservation(st: State, b: Block, minaddr: bytes)
    requires T.WellStored(st.tokens) && ValidTxs(b.txs)
    requires WithBlock(st, b, minaddr).Some?
    requires Sum(st.balances) + Total(b.firstTx) < TWO_63
    requires Funded(CreditAll(st.balances, b.firstTx), b.txs, minaddr)
    ensures Sum(WithBlock(st, b, minaddr).value.balances) == Sum(st.balances) + Total(b.firstTx) - Burnt(b.txs)
    ensures Sum(WithBlock(st, b, minaddr).value.balances) == Sum(st.balances) + Total(b.firstTx)
       <==> forall i :: 0 <= i < |b.txs| ==> b.txs[i].script != [] || b.txs[i].fee == 0
  {
    CreditAllSum(st.balances, b.firstTx);
    FundedSum(CreditAll(st.balances, b.firstTx), b.txs, minaddr);
    NothingBurntIff(b.txs);
  }

  /** Paying oneself is outside that: the amount is created, and the fee not charged. */
  lemma SelfTransferCreates(bal: Amounts, t: Transaction)
    requires t.from == t.to && Get(bal, t.from) + t.amount < TWO_64
    ensures Sum(Transfer(bal, t)) == Sum(bal) + t.amount
  {
    SelfTransferIs(bal, t);
    SumUpdate(bal, t.to, Get(bal, t.to) + t.amount);
  }

  // ---------------------------------------------------------------- money in circulation

  /** At height h there is at most the genesis credit and the rewards of heights 2 to h. */
  ghost predicate InCirculation(h: nat, bal: Amounts) {
    1 <= h && IssuedBelow(2) <= IssuedBelow(h + 1) && Sum(bal) <= GENESIS + IssuedBelow(h + 1) - IssuedBelow(2)
  }

  /** What every state reached by funded blocks satisfies. */
  ghost predicate Circulation(st: State) {
    st.height < TWO_63 && InCirculation(st.height, st.balances)
  }

  lemma CirculationBound(st: State)
    requires Circulation(st)
    ensures Sum(st.balances) < TWO_63
    ensures forall a :: Get(st.balances, a) < TWO_63
  {
    IssuanceBound(st.height + 1);
    forall a ensures Get(st.balances, a) < TWO_63 {
      SumUpdate(st.balances, a, 0);
    }
  }

  lemma CirculationAt(bal: Amounts, b: Block, minaddr: bytes, h: nat)
    requires InCirculation(h, bal)
    requires Total(b.firstTx) <= EpochReward((h + 1) / EPOCH)
    requires Funded(CreditAll(bal, b.firstTx), b.txs, minaddr)
    ensures Sum(bal) + Total(b.firstTx) < TWO_63
    ensures InCirculation(h + 1, ApplyTxs(CreditAll(bal, b.firstTx), b.txs, minaddr))
  {
    IssuanceBound(h + 2);
    OneMoreHeight(h + 1);
    CreditAllSum(bal, b.firstTx);
    FundedSum(CreditAll(bal, b.firstTx), b.txs, minaddr);
  }

  /** What a block that does not panic does to everything but the contract store. */
  ghost predicate Books(st: State, b: Block, minaddr: bytes, st1: State) {
    st1 == Booked(st, b, minaddr).(tokens := st1.tokens)
  }

  lemma BlockBooks(st: State, b: Block, minaddr: bytes)
    requires T.WellStored(st.tokens) && ValidTxs(b.txs)
    requires WithBlock(st, b, minaddr).Some?
    ensures Books(st, b, minaddr, WithBlock(st, b, minaddr).value)
    ensures T.WellStored(WithBlock(st, b, minaddr).value.tokens)
  {
  }

  lemma OneMoreHeight(h: nat)
    ensures IssuedBelow(h + 1) == IssuedBelow(h) + EpochReward(h / EPOCH)
  {
  }

  /** A block of a run: the addresses its rewards go to, and the one its fees go to here. */
  datatype Mined = Mined(block: Block, minaddr: bytes, miner: bytes, ds: bytes, cm: bytes)

  ghost predicate ValidRun(bs: seq<Mined>) {
    forall i :: 0 <= i < |bs| ==> ValidTxs(bs[i].block.txs)
  }

  function RunBlocks(st: State, bs: seq<Mined>): Option<State>
    requires T.WellStored(st.tokens) && ValidRun(bs)
    decreases |bs|
  {
    if bs == [] then Some(st)
    else match WithBlock(st, bs[0].block, bs[0].minaddr)
      case None => None
      case Some(st1) => RunBlocks(st1, bs[1..])
  }

  /** The block carries the scheduled rewards and its senders can pay. */
  ghost predicate FundedBlock(st: State, m: Mined) {
    && st.height + 1 < TWO_63
    && m.block.firstTx == BlockRewards(m.block.txs, m.miner, m.ds, m.cm, st.height + 1)
    && Funded(CreditAll(st.balances, m.block.firstTx), m.block.txs, m.minaddr)
  }

  ghost predicate FundedRun(st: State, bs: seq<Mined>)
    requires T.WellStored(st.tokens) && ValidRun(bs)
    decreases |bs|
  {
    bs == [] ||
    var m := bs[0];
    && FundedBlock(st, m)
    && (WithBlock(st, m.block, m.minaddr).Some? ==> FundedRun(WithBlock(st, m.block, m.minaddr).value, bs[1..]))
  }

  /** The genesis state of init.go: one account, one credit, height 1. */
  ghost predicate Genesis(st: State, miner: bytes) {
    st.height == 1 && st.balances == map[miner := GENESIS] && st.nonces == map[] && st.locks == map[]
    && st.tokens == map[]
  }

  lemma GenesisCirculation(st: State, miner: bytes)
    requires Genesis(st, miner)
    ensures Circulation(st) && Sum(st.balances) == GENESIS
  {
    var none: Amounts := map[];
    assert none[miner := GENESIS] == st.balances;
    SumUpdate(none, miner, GENESIS);
  }

  lemma ScheduledBound(st: State, m: Mined)
    requires FundedBlock(st, m)
    ensures Total(m.block.firstTx) <= EpochReward((st.height + 1) / EPOCH)
  {
    BlockRewardsBound(m.block.txs, m.miner, m.ds, m.cm, st.height + 1);
  }

  lemma FundedCirculates(st: State, m: Mined)
    requires Circulation(st) && FundedBlock(st, m)
    ensures Sum(st.balances) + Total(m.block.firstTx) < TWO_63
    ensures InCirculation(st.height + 1, ApplyTxs(CreditAll(st.balances, m.block.firstTx), m.block.txs, m.minaddr))
  {
    ScheduledBound(st, m);
    CirculationAt(st.balances, m.block, m.minaddr, st.height);
  }

  /** A funded block with the scheduled rewards keeps the bound. */
  lemma CirculationStep(st: State, m: Mined, st1: State)
    requires Circulation(st) && FundedBlock(st, m)
    requires Books(st, m.block, m.minaddr, st1)
    ensures Sum(st.balances) + Total(m.block.firstTx) < TWO_63
    ensures Circulation(st1) && st1.height == st.height + 1
  {
    FundedCirculates(st, m);
    NextState(st, m.block, m.minaddr, st1);
  }

  lemma NextState(st: State, b: Block, minaddr: bytes, st1: State)
    requires st.height + 1 < TWO_63 && Books(st, b, minaddr, st1)
    requires InCirculation(st.height + 1, ApplyTxs(CreditAll(st.balances, b.firstTx), b.txs, minaddr))
    ensures Circulation(st1) && st1.height == st.height + 1
  {
  }

  lemma RunHead(st: State, bs: seq<Mined>, st1: State)
    requires T.WellStored(st.tokens) && ValidRun(bs)
    requires bs != [] && WithBlock(st, bs[0].block, bs[0].minaddr) == Some(st1)
    ensures Books(st, bs[0].block, bs[0].minaddr, st1) && T.WellStored(st1.tokens)
    ensures ValidRun(bs[1..])
    ensures RunBlocks(st, bs) == RunBlocks(st1, bs[1..])
    ensures FundedRun(st, bs) ==> FundedBlock(st, bs[0]) && FundedRun(st1, bs[1..])
  {
    BlockBooks(st, bs[0].block, bs[0].minaddr);
  }

  /** Over every run of funded blocks the stored height counts the blocks and the sum of all
      balances stays below 2^63. */
  lemma {:induction false} CirculationOverRuns(st: State, bs: seq<Mined>, end: State)
    requires T.WellStored(st.tokens) && ValidRun(bs)
    requires Circulation(st) && FundedRun(st, bs)
    requires RunBlocks(st, bs) == Some(end)
    ensures Circulation(end) && Sum(end.balances) < TWO_63 && end.height == st.height + |bs|
    decreases |bs|
  {
    if bs == [] {
      CirculationBound(st);
    } else {
      var st1 := WithBlock(st, bs[0].block, bs[0].minaddr).value;
      var m := bs[0];
      RunHead(st, bs, st1);
      CirculationStep(st, m, st1);
      CirculationOverRuns(st1, bs[1..], end);
    }
  }
}
