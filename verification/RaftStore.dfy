/** What the test of the script roots adds: whatever crashes, a node that goes on has the contract store
    of the blocks it has committed. */
module RaftStore {
  import opened Bytes
  import opened Options
  import opened Rewards
  import opened Ledger
  import opened RaftSpec
  import opened RaftSafety
  import opened RaftTears
  import opened RootTest
  import M = Merkle
  import T = TokenExec

  // ---------------------------------------------------------------- tears happen in commits

  /** The ledger of the first k entries, before the marks in front of the next one. */
  ghost function Prior(cfg: Config, p: Past, log: seq<Entry>, k: nat): Option<State>
    requires k <= |log|
  {
    if k == 0 then Some(p.l0)
    else match Story(cfg, p, log, k - 1) case None => None case Some(l) => ReplayEntry(cfg, l, log[k - 1])
  }

  lemma StoryIsPrior(cfg: Config, p: Past, log: seq<Entry>, k: nat)
    requires k <= |log|
    ensures Story(cfg, p, log, k) ==
            match Prior(cfg, p, log, k) case None => None case Some(u) => Some(Marked(cfg, u, log, k, p.marks))
  {
  }

  /** Each tear here was made in a block that the ledger, as it was then, would have committed. */
  ghost predicate TakenAt(cfg: Config, u: State, log: seq<Entry>, k: nat, marks: seq<Mark>)
    requires k <= |log|
  {
    marks == [] ||
    var init, t := marks[..|marks| - 1], marks[|marks| - 1];
    TakenAt(cfg, u, log, k, init)
    && (t.Tear? && t.at == k ==> k < |log| && Takes(cfg, Marked(cfg, u, log, k, init), log[k]))
  }

  ghost predicate TearsTaken(cfg: Config, p: Past, log: seq<Entry>) {
    forall k :: 0 <= k <= |log| && Prior(cfg, p, log, k).Some? ==>
      TakenAt(cfg, Prior(cfg, p, log, k).value, log, k, p.marks)
  }

  lemma {:induction false} NoneTaken(cfg: Config, u: State, log: seq<Entry>, k: nat, marks: seq<Mark>)
    requires k <= |log| && NoneAt(marks, k)
    ensures TakenAt(cfg, u, log, k, marks)
  {
    if marks != [] {
      var init := marks[..|marks| - 1];
      assert forall i :: 0 <= i < |init| ==> init[i] == marks[i];
      NoneTaken(cfg, u, log, k, init);
    }
  }

  /** One mark more: nothing changes up to where it is, and there is none further on. */
  lemma TakenWith(cfg: Config, p: Past, log: seq<Entry>, t: Mark)
    requires TearsTaken(cfg, p, log) && MarkedUpTo(p, t.at) && t.at <= |log|
    requires t.Tear? ==> TornThere(cfg, p, log, t)
    ensures TearsTaken(cfg, p.(marks := p.marks + [t]), log)
  {
    var q := p.(marks := p.marks + [t]);
    assert q.marks[..|p.marks|] == p.marks;
    MarkedWith(p, t);
    forall k | 0 <= k <= |log| && Prior(cfg, q, log, k).Some?
      ensures TakenAt(cfg, Prior(cfg, q, log, k).value, log, k, q.marks)
    {
      if k > t.at {
        NoneBeyond(q.marks, t.at, k);
        NoneTaken(cfg, Prior(cfg, q, log, k).value, log, k, q.marks);
      } else {
        SamePrior(cfg, p, log, t, k);
        StoryIsPrior(cfg, p, log, k);
      }
    }
  }

  lemma SamePrior(cfg: Config, p: Past, log: seq<Entry>, t: Mark, k: nat)
    requires k <= |log| && k <= t.at
    ensures Prior(cfg, p.(marks := p.marks + [t]), log, k) == Prior(cfg, p, log, k)
  {
    if k > 0 {
      OneMoreMark(cfg, p, log, k - 1, t);
    }
  }

  lemma EndTaken(cfg: Config, p: Past, log: seq<Entry>, k: nat, o: Outcome)
    requires SafeFrom(cfg, p, log, k, o) && TearsTaken(cfg, p, log)
    ensures TearsTaken(cfg, PastAfter(p, o), log)
  {
    if !o.Running? && o.torn.Some? {
      assert TornThere(cfg, p, log, o.torn.value);
      TornInLine(cfg, p, log, k, o);
      TakenWith(cfg, p, log, o.torn.value);
    }
  }

  lemma TornInLine(cfg: Config, p: Past, log: seq<Entry>, k: nat, o: Outcome)
    requires SafeFrom(cfg, p, log, k, o) && !o.Running? && o.torn.Some?
    ensures MarkedUpTo(p, o.torn.value.at)
  {
    var t := o.torn.value;
    assert PastAfter(p, o).marks == p.marks + [t];
    assert (p.marks + [t])[..|p.marks|] == p.marks;
  }

  lemma StepTaken(cfg: Config, l0: State, log: seq<Entry>, st: Stage, step: Step)
    requires Setting(cfg, log) && Safe(cfg, l0, log, st) && Allowed(cfg, log, st, step)
    requires TearsTaken(cfg, Past(l0, st.marks), log)
    ensures TearsTaken(cfg, Past(l0, After(cfg, log, st, step).marks), log)
  {
    var p := Past(l0, st.marks);
    EndTaken(cfg, p, log, st.applied, st.outcome);
    assert MarksAfter(st.marks, st.outcome) + [] == MarksAfter(st.marks, st.outcome);
    if step.Change? {
      TakenWith(cfg, p, log, Local(st.applied, step.op));
    }
  }

  lemma {:induction false} RunsTake(cfg: Config, l0: State, log: seq<Entry>, st: Stage, steps: seq<Step>)
    requires Setting(cfg, log) && Safe(cfg, l0, log, st) && IsRun(cfg, log, st, steps)
    requires TearsTaken(cfg, Past(l0, st.marks), log)
    ensures var end := RunFrom(cfg, log, st, steps);
            Safe(cfg, l0, log, end) && TearsTaken(cfg, Past(l0, end.marks), log)
    decreases |steps|
  {
    if steps != [] {
      StepKeeps(cfg, l0, log, st, steps[0]);
      StepTaken(cfg, l0, log, st, steps[0]);
      RunsTake(cfg, l0, log, After(cfg, log, st, steps[0]), steps[1..]);
    }
  }

  // ---------------------------------------------------------------- the test of the roots

  /** A node tests the roots of a block's scripts before it takes it, with a hash that does not collide
      on what the scripts of this log could write. */
  ghost predicate TestsRoots(h: M.Hash, size: nat, accepts: (State, Block) -> bool, log: seq<Entry>) {
    && M.DigestSize(h, size)
    && (forall l: State, b: Block :: accepts(l, b) && T.WellStored(l.tokens) && ValidTxs(b.txs) ==>
          RootsHold(h, l.tokens, b.txs))
    && forall i :: 0 <= i < |log| && log[i].kind.BlockData? ==> Unambiguous(h, log[i].kind.block)
  }

  ghost predicate Unambiguous(h: M.Hash, b: Block) {
    forall i :: 0 <= i < |b.txs| && ValidTx(b.txs[i]) ==> NoCollisions(h, b.txs[i])
  }

  lemma {:induction false} MarkedStored(snapCount: nat, accepts: (State, Block) -> bool, minaddr: bytes,
                                        u: State, log: seq<Entry>, k: nat, marks: seq<Mark>)
    requires k <= |log|
    ensures T.WellStored(Marked(NodeConfig(snapCount, accepts, minaddr), u, log, k, marks).tokens)
            <==> T.WellStored(u.tokens)
  {
    if marks != [] {
      var init, t := marks[..|marks| - 1], marks[|marks| - 1];
      var l := Marked(NodeConfig(snapCount, accepts, minaddr), u, log, k, init);
      MarkedStored(snapCount, accepts, minaddr, u, log, k, init);
      OneMarkBooks(snapCount, accepts, minaddr, l, log, k, t);
    }
  }

  /** However often a block is torn: where it passes in the end, it comes out as if it never had been. */
  lemma {:induction false} MarkedReruns(h: M.Hash, size: nat, snapCount: nat, accepts: (State, Block) -> bool,
                                        minaddr: bytes, u: State, log: seq<Entry>, k: nat, marks: seq<Mark>)
    requires k < |log| && log[k].kind.BlockData? && TestsRoots(h, size, accepts, log)
    requires T.WellStored(u.tokens) && ValidTxs(log[k].kind.block.txs)
    requires TakenAt(NodeConfig(snapCount, accepts, minaddr), u, log, k, marks)
    requires var l := Marked(NodeConfig(snapCount, accepts, minaddr), u, log, k, marks);
             T.WellStored(l.tokens) && RootsHold(h, l.tokens, log[k].kind.block.txs)
    ensures var l := Marked(NodeConfig(snapCount, accepts, minaddr), u, log, k, marks);
            RunScripts(l.tokens, log[k].kind.block.txs) == RunScripts(u.tokens, log[k].kind.block.txs)
  {
    if marks != [] {
      var cfg, init, t := NodeConfig(snapCount, accepts, minaddr), marks[..|marks| - 1], marks[|marks| - 1];
      var l, b := Marked(cfg, u, log, k, init), log[k].kind.block;
      MarkedStored(snapCount, accepts, minaddr, u, log, k, init);
      OneMarkBooks(snapCount, accepts, minaddr, l, log, k, t);
      if t.Tear? && t.at == k {
        assert accepts(l, b) && RootsHold(h, l.tokens, b.txs);
        OneTearReruns(h, size, snapCount, accepts, minaddr, l, log, k, t);
      }
      MarkedReruns(h, size, snapCount, accepts, minaddr, u, log, k, init);
    }
  }

  lemma OneTearReruns(h: M.Hash, size: nat, snapCount: nat, accepts: (State, Block) -> bool,
                      minaddr: bytes, l: State, log: seq<Entry>, k: nat, t: Mark)
    requires k < |log| && log[k].kind.BlockData? && TestsRoots(h, size, accepts, log) && t.Tear?
    requires T.WellStored(l.tokens) && ValidTxs(log[k].kind.block.txs) && RootsHold(h, l.tokens, log[k].kind.block.txs)
    requires var l1 := MarkedOnce(NodeConfig(snapCount, accepts, minaddr), l, log, k, t);
             T.WellStored(l1.tokens) && RootsHold(h, l1.tokens, log[k].kind.block.txs)
    ensures var l1 := MarkedOnce(NodeConfig(snapCount, accepts, minaddr), l, log, k, t);
            RunScripts(l1.tokens, log[k].kind.block.txs) == RunScripts(l.tokens, log[k].kind.block.txs)
  {
    var b := log[k].kind.block;
    assert Unambiguous(h, b);
    TornPasses(h, size, l.tokens, b.txs, t.flushed);
  }

  ghost predicate NoTearAt(marks: seq<Mark>, k: nat) {
    forall i :: 0 <= i < |marks| ==> marks[i].Local? || marks[i].at != k
  }

  lemma {:induction false} UntornAlike(snapCount: nat, accepts: (State, Block) -> bool, minaddr: bytes,
                                       u: State, log: seq<Entry>, k: nat, marks: seq<Mark>)
    requires k <= |log| && NoTearAt(marks, k)
    ensures Alike(Marked(NodeConfig(snapCount, accepts, minaddr), u, log, k, marks), u)
  {
    if marks != [] {
      var init, t := marks[..|marks| - 1], marks[|marks| - 1];
      assert t.Local? || t.at != k;
      assert forall i :: 0 <= i < |init| ==> init[i] == marks[i];
      UntornAlike(snapCount, accepts, minaddr, u, log, k, init);
      OneMarkBooks(snapCount, accepts, minaddr, Marked(NodeConfig(snapCount, accepts, minaddr), u, log, k, init),
                   log, k, t);
    }
  }

  /** Only the very next block can be torn. */
  lemma {:induction false} OldIsUntorn(cfg: Config, u: State, log: seq<Entry>, k: nat, marks: seq<Mark>)
    requires CommitsInOrder(cfg) && k < |log| && TakenAt(cfg, u, log, k, marks) && Stale(u, log[k])
    ensures NoTearAt(marks, k)
  {
    if marks != [] {
      var init := marks[..|marks| - 1];
      OldIsUntorn(cfg, u, log, k, init);
      MarkedHeight(cfg, u, log, k, init);
      forall i | 0 <= i < |marks| ensures marks[i].Local? || marks[i].at != k {
        assert i < |init| ==> init[i] == marks[i];
      }
    }
  }

  /** The next block, committed over a ledger that may have been torn in it, and over one like it. */
  lemma CommitAlike(h: M.Hash, size: nat, snapCount: nat, accepts: (State, Block) -> bool, minaddr: bytes,
                    u: State, c: State, log: seq<Entry>, k: nat, marks: seq<Mark>)
    requires k < |log| && TestsRoots(h, size, accepts, log) && Alike(u, c)
    requires TakenAt(NodeConfig(snapCount, accepts, minaddr), u, log, k, marks)
    requires var cfg := NodeConfig(snapCount, accepts, minaddr);
             var l := Marked(cfg, u, log, k, marks);
             !Stale(l, log[k]) && ReplayEntry(cfg, l, log[k]).Some?
    ensures var cfg := NodeConfig(snapCount, accepts, minaddr);
            var r, r1 := ReplayEntry(cfg, Marked(cfg, u, log, k, marks), log[k]), cfg.commit(c, log[k].kind.block);
            r1.Some? && Alike(r.value, r1.value)
  {
    var cfg, b := NodeConfig(snapCount, accepts, minaddr), log[k].kind.block;
    var l := Marked(cfg, u, log, k, marks);
    MarkedBooks(snapCount, accepts, minaddr, u, log, k, marks);
    MarkedStored(snapCount, accepts, minaddr, u, log, k, marks);
    assert RootsHold(h, l.tokens, b.txs);
    MarkedReruns(h, size, snapCount, accepts, minaddr, u, log, k, marks);
    AlikeWith(l, c, b, minaddr);
  }

  lemma AlikeWith(l: State, c: State, b: Block, minaddr: bytes)
    requires T.WellStored(l.tokens) && T.WellStored(c.tokens) && ValidTxs(b.txs) && SameBooks(l, c)
    requires RunScripts(l.tokens, b.txs) == RunScripts(c.tokens, b.txs)
    requires WithBlock(l, b, minaddr).Some?
    ensures WithBlock(c, b, minaddr).Some? && Alike(WithBlock(l, b, minaddr).value, WithBlock(c, b, minaddr).value)
  {
    BookedAlike(l, c, b, minaddr);
  }

  /** The ledger at k is like that of a commit of its blocks, each once: same books, same contract store. */
  ghost predicate RightAt(cfg: Config, p: Past, log: seq<Entry>, k: nat, u: State)
    requires k <= |log|
  {
    var r := CommitAll(cfg, p.l0, AppliedBlocks(cfg, p, log, k));
    r.Some? && Alike(u, r.value)
  }

  /** One entry keeps the ledger right. */
  ghost predicate StepRight(cfg: Config, p: Past, log: seq<Entry>, k: nat)
    requires k < |log|
  {
    var u, v := Prior(cfg, p, log, k), Prior(cfg, p, log, k + 1);
    u.Some? && v.Some? && RightAt(cfg, p, log, k, u.value) ==> RightAt(cfg, p, log, k + 1, v.value)
  }

  lemma {:induction false} RightByInduction(cfg: Config, p: Past, log: seq<Entry>, k: nat)
    requires k <= |log| && TearsTaken(cfg, p, log) && Prior(cfg, p, log, k).Some?
    requires forall j :: 0 <= j < |log| ==> StepRight(cfg, p, log, j)
    ensures RightAt(cfg, p, log, k, Prior(cfg, p, log, k).value)
  {
    if k > 0 {
      PriorSteps(cfg, p, log, k - 1);
      RightByInduction(cfg, p, log, k - 1);
      assert StepRight(cfg, p, log, k - 1);
    }
  }

  lemma PriorIsRight(h: M.Hash, size: nat, snapCount: nat, accepts: (State, Block) -> bool,
                     minaddr: bytes, cfg: Config, p: Past, log: seq<Entry>, k: nat)
    requires k <= |log| && TestsRoots(h, size, accepts, log) && cfg == NodeConfig(snapCount, accepts, minaddr)
    requires TearsTaken(cfg, p, log) && Prior(cfg, p, log, k).Some?
    ensures RightAt(cfg, p, log, k, Prior(cfg, p, log, k).value)
  {
    forall j | 0 <= j < |log| ensures StepRight(cfg, p, log, j) {
      if Prior(cfg, p, log, j).Some? && Prior(cfg, p, log, j + 1).Some?
         && RightAt(cfg, p, log, j, Prior(cfg, p, log, j).value) {
        NextPriorIsRight(h, size, snapCount, accepts, minaddr, cfg, p, log, j);
      }
    }
    RightByInduction(cfg, p, log, k);
  }

  lemma NextPriorIsRight(h: M.Hash, size: nat, snapCount: nat, accepts: (State, Block) -> bool,
                         minaddr: bytes, cfg: Config, p: Past, log: seq<Entry>, k: nat)
    requires k < |log| && TestsRoots(h, size, accepts, log) && cfg == NodeConfig(snapCount, accepts, minaddr)
    requires TearsTaken(cfg, p, log) && Prior(cfg, p, log, k).Some? && Prior(cfg, p, log, k + 1).Some?
    requires RightAt(cfg, p, log, k, Prior(cfg, p, log, k).value)
    ensures RightAt(cfg, p, log, k + 1, Prior(cfg, p, log, k + 1).value)
  {
    PriorSteps(cfg, p, log, k);
    NextIsRight(h, size, snapCount, accepts, minaddr, cfg, p, log, k, Prior(cfg, p, log, k).value);
  }

  lemma PriorSteps(cfg: Config, p: Past, log: seq<Entry>, k: nat)
    requires k < |log| && TearsTaken(cfg, p, log) && Prior(cfg, p, log, k + 1).Some?
    ensures Prior(cfg, p, log, k).Some?
    ensures var u := Prior(cfg, p, log, k).value;
            var l := Marked(cfg, u, log, k, p.marks);
            && TakenAt(cfg, u, log, k, p.marks) && Story(cfg, p, log, k) == Some(l)
            && ReplayEntry(cfg, l, log[k]) == Prior(cfg, p, log, k + 1)
  {
    StoryIsPrior(cfg, p, log, k);
  }

  lemma NextIsRight(h: M.Hash, size: nat, snapCount: nat, accepts: (State, Block) -> bool,
                    minaddr: bytes, cfg: Config, p: Past, log: seq<Entry>, k: nat, u: State)
    requires k < |log| && TestsRoots(h, size, accepts, log) && cfg == NodeConfig(snapCount, accepts, minaddr)
    requires TakenAt(cfg, u, log, k, p.marks) && RightAt(cfg, p, log, k, u)
    requires var l := Marked(cfg, u, log, k, p.marks);
             Story(cfg, p, log, k) == Some(l) && ReplayEntry(cfg, l, log[k]).Some?
    ensures RightAt(cfg, p, log, k + 1, ReplayEntry(cfg, Marked(cfg, u, log, k, p.marks), log[k]).value)
  {
    var e := log[k];
    var l, bs := Marked(cfg, u, log, k, p.marks), AppliedBlocks(cfg, p, log, k);
    NodesCommitInOrder(snapCount, accepts, minaddr);
    MarkedHeight(cfg, u, log, k, p.marks);
    if Stale(l, e) {
      assert AppliedBlocks(cfg, p, log, k + 1) == bs;
      OldIsUntorn(cfg, u, log, k, p.marks);
      UntornAlike(snapCount, accepts, minaddr, u, log, k, p.marks);
    } else {
      assert AppliedBlocks(cfg, p, log, k + 1) == bs + [e.kind.block];
      assert (bs + [e.kind.block])[..|bs|] == bs;
      CommitAlike(h, size, snapCount, accepts, minaddr, u, CommitAll(cfg, p.l0, bs).value, log, k, p.marks);
    }
  }

  /** A node that tests the roots never goes on with a wrong contract store: after any run of deliveries,
      recoveries, crashes in the middle of blocks, panics, restarts and local changes its ledger is, but
      for locks and nonce records, that of its blocks committed one after the other - or, if a crash has
      just torn the next block, that ledger with the scripts flushed before the crash. */
  lemma StoreIsRight(h: M.Hash, size: nat, snapCount: nat, accepts: (State, Block) -> bool, minaddr: bytes,
                     l0: State, log: seq<Entry>, steps: seq<Step>)
    requires snapCount > 0 && WellIndexed(log) && TestsRoots(h, size, accepts, log)
    requires IsRun(NodeConfig(snapCount, accepts, minaddr), log, Fresh(l0), steps)
    ensures var cfg := NodeConfig(snapCount, accepts, minaddr);
            var st := RunFrom(cfg, log, Fresh(l0), steps);
            var p := PastAfter(Past(l0, st.marks), st.outcome);
            && st.applied <= |log| && Prior(cfg, p, log, st.applied).Some?
            && var u := Prior(cfg, p, log, st.applied).value;
              && RightAt(cfg, p, log, st.applied, u)
              && st.outcome.node.ledger == Marked(cfg, u, log, st.applied, p.marks)
              && (NoTearAt(p.marks, st.applied) ==> RightAt(cfg, p, log, st.applied, st.outcome.node.ledger))
  {
    var cfg := NodeConfig(snapCount, accepts, minaddr);
    NodesCommitInOrder(snapCount, accepts, minaddr);
    FreshIsSafe(cfg, l0, log);
    FreshIsTaken(cfg, l0, log);
    RunsTake(cfg, l0, log, Fresh(l0), steps);
    EndIsRight(h, size, snapCount, accepts, minaddr, l0, log, RunFrom(cfg, log, Fresh(l0), steps));
  }

  lemma FreshIsTaken(cfg: Config, l0: State, log: seq<Entry>)
    ensures TearsTaken(cfg, Past(l0, Fresh(l0).marks), log)
  {
  }

  lemma EndIsRight(h: M.Hash, size: nat, snapCount: nat, accepts: (State, Block) -> bool, minaddr: bytes,
                   l0: State, log: seq<Entry>, st: Stage)
    requires TestsRoots(h, size, accepts, log)
    requires var cfg := NodeConfig(snapCount, accepts, minaddr);
             Safe(cfg, l0, log, st) && TearsTaken(cfg, Past(l0, st.marks), log)
    ensures var cfg := NodeConfig(snapCount, accepts, minaddr);
            var p := PastAfter(Past(l0, st.marks), st.outcome);
            && st.applied <= |log| && Prior(cfg, p, log, st.applied).Some?
            && var u := Prior(cfg, p, log, st.applied).value;
              && RightAt(cfg, p, log, st.applied, u)
              && st.outcome.node.ledger == Marked(cfg, u, log, st.applied, p.marks)
              && (NoTearAt(p.marks, st.applied) ==> RightAt(cfg, p, log, st.applied, st.outcome.node.ledger))
  {
    var cfg, p := NodeConfig(snapCount, accepts, minaddr), PastAfter(Past(l0, st.marks), st.outcome);
    EndTaken(cfg, Past(l0, st.marks), log, st.applied, st.outcome);
    StoryIsPrior(cfg, p, log, st.applied);
    PriorIsRight(h, size, snapCount, accepts, minaddr, cfg, p, log, st.applied);
    if NoTearAt(p.marks, st.applied) {
      UntornAlike(snapCount, accepts, minaddr, Prior(cfg, p, log, st.applied).value, log, st.applied, p.marks);
    }
  }

  // ---------------------------------------------------------------- a torn mint

  /** So the block that mints does not mint twice: torn behind its script, it no longer passes, and the
      node stops. */
  lemma TornMintStops(h: M.Hash, size: nat, snapCount: nat, accepts: (State, Block) -> bool, minaddr: bytes,
                      l: State, log: seq<Entry>, k: nat, t: Transaction, id: bytes, amount: uint64)
    requires k < |log| && TestsRoots(h, size, accepts, log) && T.WellStored(l.tokens) && ValidTx(t)
    requires log[k].kind.BlockData? && log[k].kind.block.txs == [t]
    requires log[k].kind.block.height == l.height + 1 && accepts(l, log[k].kind.block)
    requires IsMint(t.script, id, amount) && T.PlainId(id) && T.OwnedBy(l.tokens, id, t.from) && amount > 0
    ensures var cfg := NodeConfig(snapCount, accepts, minaddr);
            && ReplayEntry(cfg, l, log[k]).Some?
            && ReplayEntry(cfg, cfg.torn(l, log[k].kind.block, 1), log[k]) == None
  {
    var b, torn := log[k].kind.block, Flushed(l.tokens, [t], 1);
    MintTwice(l.tokens, t, id, amount);
    AddsMore(T.Balance(l.tokens, id, t.from), amount);
    assert Unambiguous(h, b) && b.txs[0] == t;
    if accepts(l.(tokens := torn), b) {
      TornPasses(h, size, l.tokens, b.txs, 1);
      assert false;
    }
  }
}
