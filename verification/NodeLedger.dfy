/** From the log to the money: what the ledger of a running node holds. */
module NodeLedger {
  import opened Bytes
  import opened Options
  import opened MapSum
  import opened Ledger
  import opened Conservation
  import opened TxPool
  import opened PackingRules
  import C = Chain
  import opened RaftSpec
  import opened RaftSafety
  import T = TokenExec

  /** Who is rewarded for a block. */
  datatype Rewarded = Rewarded(miner: bytes, ds: bytes, cm: bytes)

  function Run(bs: seq<Block>, minaddr: bytes, who: seq<Rewarded>): (r: seq<Mined>)
    requires |who| == |bs|
    ensures |r| == |bs|
  {
    if bs == [] then []
    else [Mined(bs[0], minaddr, who[0].miner, who[0].ds, who[0].cm)] + Run(bs[1..], minaddr, who[1..])
  }

  lemma {:induction false} CommitAllHead(cfg: Config, l0: State, bs: seq<Block>)
    requires bs != []
    ensures CommitAll(cfg, l0, bs) ==
            match cfg.commit(l0, bs[0]) case None => None case Some(l1) => CommitAll(cfg, l1, bs[1..])
    decreases |bs|
  {
    if |bs| == 1 {
      assert bs[..0] == [] && bs[1..] == [];
    } else {
      var init := bs[..|bs| - 1];
      CommitAllHead(cfg, l0, init);
      assert init[1..] == bs[1..][..|bs| - 2];
    }
  }

  /** Committing blocks as the node does is the run of those blocks. */
  lemma {:induction false} CommitAllRuns(snapCount: nat, accepts: (State, Block) -> bool, minaddr: bytes,
                                         l0: State, bs: seq<Block>, who: seq<Rewarded>, end: State)
    requires |who| == |bs| && T.WellStored(l0.tokens)
    requires CommitAll(NodeConfig(snapCount, accepts, minaddr), l0, bs) == Some(end)
    ensures ValidRun(Run(bs, minaddr, who)) && RunBlocks(l0, Run(bs, minaddr, who)) == Some(end)
    decreases |bs|
  {
    if bs != [] {
      var cfg := NodeConfig(snapCount, accepts, minaddr);
      CommitAllHead(cfg, l0, bs);
      var l1 := cfg.commit(l0, bs[0]).value;
      BlockBooks(l0, bs[0], minaddr);
      CommitAllRuns(snapCount, accepts, minaddr, l1, bs[1..], who[1..], end);
      var ms := Run(bs, minaddr, who);
      var rest := Run(bs[1..], minaddr, who[1..]);
      assert ms[1..] == rest;
      assert forall i :: 0 < i < |ms| ==> ms[i] == rest[i - 1];
    }
  }

  /** The blocks carry the scheduled rewards and their senders can pay, one after the other. */
  ghost predicate FundedBooks(l0: State, bs: seq<Block>, minaddr: bytes, who: seq<Rewarded>)
    requires |who| == |bs|
  {
    bs == [] ||
    var init, b, w := bs[..|bs| - 1], bs[|bs| - 1], who[|bs| - 1];
    && FundedBooks(l0, init, minaddr, who[..|bs| - 1])
    && FundedBlock(AllBooked(l0, init, minaddr), Mined(b, minaddr, w.miner, w.ds, w.cm))
  }

  lemma {:induction false} BooksCirculate(l0: State, bs: seq<Block>, minaddr: bytes, who: seq<Rewarded>)
    requires |who| == |bs| && Circulation(l0) && FundedBooks(l0, bs, minaddr, who)
    ensures Circulation(AllBooked(l0, bs, minaddr)) && AllBooked(l0, bs, minaddr).height == l0.height + |bs|
  {
    if bs != [] {
      var init, b, w := bs[..|bs| - 1], bs[|bs| - 1], who[|bs| - 1];
      BooksCirculate(l0, init, minaddr, who[..|bs| - 1]);
      var l := AllBooked(l0, init, minaddr);
      CirculationStep(l, Mined(b, minaddr, w.miner, w.ds, w.cm), Booked(l, b, minaddr));
    }
  }

  /** A node that started from genesis and has gone through any run of deliveries, recoveries, crashes,
      panics, restarts and local changes: if the blocks it applied carry the scheduled
      rewards and their senders could pay, all balances of its ledger together are below 2^63, and its
      height counts them. */
  lemma NodeCirculation(snapCount: nat, accepts: (State, Block) -> bool, minaddr: bytes, l0: State, miner: bytes,
                        log: seq<Entry>, steps: seq<Step>, who: seq<Rewarded>)
    requires snapCount > 0 && WellIndexed(log) && Genesis(l0, miner)
    requires IsRun(NodeConfig(snapCount, accepts, minaddr), log, Fresh(l0), steps)
    requires var cfg := NodeConfig(snapCount, accepts, minaddr);
             var st := RunFrom(cfg, log, Fresh(l0), steps);
             && st.applied <= |log|
             && var bs := AppliedBlocks(cfg, PastAfter(Past(l0, st.marks), st.outcome), log, st.applied);
               |who| == |bs| && FundedBooks(l0, bs, minaddr, who)
    ensures var cfg := NodeConfig(snapCount, accepts, minaddr);
            var st := RunFrom(cfg, log, Fresh(l0), steps);
            var end := st.outcome.node.ledger;
            && Sum(end.balances) < TWO_63 && end.height == 1 + |who|
            && (st.outcome.Running? ==> st.outcome.node.lastHeight == end.height)
  {
    var cfg := NodeConfig(snapCount, accepts, minaddr);
    var st := RunFrom(cfg, log, Fresh(l0), steps);
    ExactlyOnce(snapCount, accepts, minaddr, l0, log, steps);
    var bs := AppliedBlocks(cfg, PastAfter(Past(l0, st.marks), st.outcome), log, st.applied);
    GenesisCirculation(l0, miner);
    BooksCirculate(l0, bs, minaddr, who);
    CirculationBound(AllBooked(l0, bs, minaddr));
  }

  /** The block a leader packs is the next one for every node with the leader's ledger: handed over in a
      new entry, it is tested, and if it passes and its scripts run it is committed, as the leader's round
      would have it, and moves the height on by one. */
  lemma PackedIsNext(snapCount: nat, accepts: (State, Block) -> bool, n: Node, op: C.Op, e: Entry)
    requires op.Round? && T.WellStored(n.ledger.tokens) && C.ValidOp(op) && PackAll(n.ledger, EMPTY, op.popped).Some?
    requires n.lastHeight == n.ledger.height && n.ledger.height as int + 1 < TWO_64
    requires e.index > n.committedIndex && e.kind == BlockData(C.PackedBlock(n.ledger, op))
    ensures !Stale(n.ledger, e) && e.kind.block.height == n.lastHeight + 1
    ensures ApplyEntry(NodeConfig(snapCount, accepts, op.minaddr), n, e) ==
            if !accepts(n.ledger, e.kind.block) then None
            else match C.Perform(n.ledger, op)
              case None => None
              case Some(l) => Some(n.(ledger := l, lastHeight := n.lastHeight + 1, committedIndex := e.index))
  {
    AddOne(n.ledger.height);
  }
}
