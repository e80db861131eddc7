/** The snapshots of a node tile the log, and a chain of them brings a node that has fallen behind
    to the ledger of the log. */
module RaftSnapshots {
  import opened Options
  import opened Ledger
  import opened Multiples
  import opened RaftSpec
  import opened RaftSafety

  ghost predicate Decodable(log: seq<Entry>) {
    forall i :: 0 <= i < |log| ==> !log[i].kind.Undecodable?
  }

  // ---------------------------------------------------------------- how far committing takes a node

  lemma {:induction false} CommitFrame(cfg: Config, n: Node, es: seq<Entry>)
    requires CommitEntries(cfg, n, es).Some?
    ensures var m := CommitEntries(cfg, n, es).value;
            && m == n.(ledger := m.ledger, lastHeight := m.lastHeight, committedIndex := m.committedIndex)
            && n.committedIndex <= m.committedIndex
  {
    if es != [] {
      CommitFrame(cfg, n, es[..|es| - 1]);
    }
  }

  lemma {:induction false} RangeWithin(cfg: Config, n: Node, log: seq<Entry>, lo: nat, hi: nat)
    requires WellIndexed(log) && lo <= hi <= |log|
    requires CommitRange(cfg, n, log, lo, hi).Some?
    ensures CommitRange(cfg, n, log, lo, hi).value.committedIndex <= Max(n.committedIndex, hi)
    decreases hi
  {
    if lo < hi {
      RangeWithin(cfg, n, log, lo, hi - 1);
    }
  }

  /** Entries up to hi never take the commit index past hi. */
  lemma EntriesWithin(cfg: Config, n: Node, log: seq<Entry>, lo: nat, hi: nat)
    requires WellIndexed(log) && lo <= hi <= |log|
    requires CommitEntries(cfg, n, Stretch(log, lo, hi)).Some?
    ensures var m := CommitEntries(cfg, n, Stretch(log, lo, hi)).value;
            && m == n.(ledger := m.ledger, lastHeight := m.lastHeight, committedIndex := m.committedIndex)
            && n.committedIndex <= m.committedIndex <= Max(n.committedIndex, hi)
  {
    RangeIs(cfg, n, log, lo, hi);
    RangeWithin(cfg, n, log, lo, hi);
    CommitFrame(cfg, n, Stretch(log, lo, hi));
  }

  lemma {:induction false} RangeReaches(cfg: Config, n: Node, log: seq<Entry>, lo: nat, hi: nat)
    requires WellIndexed(log) && Decodable(log) && lo <= hi <= |log| && lo <= n.committedIndex
    requires CommitRange(cfg, n, log, lo, hi).Some?
    ensures CommitRange(cfg, n, log, lo, hi).value.committedIndex == Max(n.committedIndex, hi)
    decreases hi
  {
    if lo < hi {
      RangeReaches(cfg, n, log, lo, hi - 1);
    }
  }

  /** Entries that decode leave no trace but this: the node has committed up to the last of them. */
  lemma EntriesReach(cfg: Config, n: Node, log: seq<Entry>, lo: nat, hi: nat)
    requires WellIndexed(log) && Decodable(log) && lo <= hi <= |log| && lo <= n.committedIndex
    requires CommitEntries(cfg, n, Stretch(log, lo, hi)).Some?
    ensures var m := CommitEntries(cfg, n, Stretch(log, lo, hi)).value;
            && m == n.(ledger := m.ledger, lastHeight := m.lastHeight, committedIndex := Max(n.committedIndex, hi))
  {
    RangeIs(cfg, n, log, lo, hi);
    RangeReaches(cfg, n, log, lo, hi);
    CommitFrame(cfg, n, Stretch(log, lo, hi));
  }

  // ---------------------------------------------------------------- snapshots that tile the log

  /** Every snapshot is of this log, starts where the one before ends, or earlier, and ends later. */
  ghost predicate Tiled(cfg: Config, log: seq<Entry>, disk: seq<Snapshot>)
    requires cfg.snapCount > 0
  {
    disk == [] ||
    (var init, s := disk[..|disk| - 1], disk[|disk| - 1];
     Tiled(cfg, log, init) && Genuine(cfg, log, s) && Start(s) <= LastSnapshot(init) < s.index)
  }

  /** The log as it can be put together from snapshot files alone. */
  function Rebuilt(disk: seq<Snapshot>): seq<Entry> {
    if disk == [] then []
    else
      var r := Rebuilt(disk[..|disk| - 1]);
      match Missing(|r|, disk[|disk| - 1]) case None => r case Some(es) => r + es
  }

  /** Snapshots that tile the log hold all of it, up to the last of them. */
  lemma {:induction false} TilesRebuildTheLog(cfg: Config, log: seq<Entry>, disk: seq<Snapshot>)
    requires cfg.snapCount > 0 && WellIndexed(log) && Tiled(cfg, log, disk)
    ensures LastSnapshot(disk) <= |log| && Rebuilt(disk) == log[..LastSnapshot(disk)]
    decreases |disk|
  {
    if disk != [] {
      var s := disk[|disk| - 1];
      TilesRebuildTheLog(cfg, log, disk[..|disk| - 1]);
      var c := LastSnapshot(disk[..|disk| - 1]);
      MissingIs(cfg, log, s, c);
      StretchIsSlice(log, c, s.index);
      assert log[..c] + Stretch(log, c, s.index) == log[..s.index];
    }
  }

  lemma TiledWith(cfg: Config, log: seq<Entry>, disk: seq<Snapshot>, s: Snapshot)
    requires cfg.snapCount > 0 && Tiled(cfg, log, disk) && Genuine(cfg, log, s)
    requires Start(s) <= LastSnapshot(disk) < s.index
    ensures Tiled(cfg, log, disk + [s]) && LastSnapshot(disk + [s]) == s.index
  {
    assert (disk + [s])[..|disk|] == disk;
  }

  // ---------------------------------------------------------------- the invariant of the indices

  /** The snapshot index is that of the last file, and a multiple of snapCount. */
  ghost predicate Tiling(cfg: Config, log: seq<Entry>, n: Node)
    requires cfg.snapCount > 0
  {
    Multiple(n.snapshotIndex, cfg.snapCount) && n.snapshotIndex == LastSnapshot(n.disk) && Tiled(cfg, log, n.disk)
  }

  ghost predicate Ordered(log: seq<Entry>, n: Node) {
    n.snapshotIndex <= n.committedIndex <= |log|
  }

  /** Snapshots a node takes itself are exactly adjacent. */
  lemma TriggerTiles(cfg: Config, log: seq<Entry>, n: Node, saved: bool)
    requires cfg.snapCount > 0 && Tiling(cfg, log, n)
    ensures var m := MaybeSnapshot(cfg, log, n, saved);
            && Tiling(cfg, log, m) && (Ordered(log, n) ==> Ordered(log, m))
            && (m.disk != n.disk ==>
                  && |m.disk| == |n.disk| + 1 && m.disk[..|n.disk|] == n.disk
                  && m.disk[|n.disk|].entries.Some? && Start(m.disk[|n.disk|]) == n.snapshotIndex)
  {
    var c, k := n.committedIndex, cfg.snapCount;
    var m := MaybeSnapshot(cfg, log, n, saved);
    if m != n {
      RoundedDown(c, k);
      var a := c - c % k;
      var s := Snapshot(a, Some(Stretch(log, n.snapshotIndex, a)));
      assert m.disk == n.disk + [s];
      assert Genuine(cfg, log, s) && Start(s) == n.snapshotIndex;
      TiledWith(cfg, log, n.disk, s);
    }
  }

  // ---------------------------------------------------------------- recovery

  /** A leader answers with the snapshot it was asked for: one snapCount further each time. */
  ghost predicate Honest(cfg: Config, log: seq<Entry>, next: nat, replies: seq<Reply>)
    requires cfg.snapCount > 0
    decreases |replies|
  {
    replies == [] ||
    match replies[0]
    case Idle => Honest(cfg, log, next, replies[1..])
    case Reply(s, _) => Genuine(cfg, log, s) && s.index == next && Honest(cfg, log, next + cfg.snapCount, replies[1..])
    case Cut(s, _) => Genuine(cfg, log, s) && s.index == next
    case _ => true
  }

  /** One snapshot taken over: it tiles, and the node is snapCount further. */
  lemma TakeOverTiles(cfg: Config, log: seq<Entry>, n: Node, s: Snapshot, es: seq<Entry>)
    requires Setting(cfg, log) && Tiling(cfg, log, n)
    requires Genuine(cfg, log, s) && s.index == n.snapshotIndex + cfg.snapCount
    requires Missing(n.committedIndex, s) == Some(es) && CommitEntries(cfg, n, es).Some?
    ensures var m, c := TakeOver(cfg, n, s, es).value, CommitEntries(cfg, n, es).value;
            && c == n.(ledger := c.ledger, lastHeight := c.lastHeight, committedIndex := c.committedIndex)
            && m == c.(disk := n.disk + [s], snapshotIndex := s.index, committedIndex := s.index)
            && Tiling(cfg, log, c) && Tiling(cfg, log, m) && Ordered(log, m)
            && (Ordered(log, n) ==> Ordered(log, c))
  {
    MissingIs(cfg, log, s, n.committedIndex);
    EntriesWithin(cfg, n, log, n.committedIndex, s.index);
    MultiplesApart(Start(s), s.index, cfg.snapCount);
    TiledWith(cfg, log, n.disk, s);
  }

  /** From number i on, every snapshot ends k after the one before. */
  predicate Spaced(k: nat, disk: seq<Snapshot>, i: nat)
    decreases |disk| - i
  {
    i >= |disk| || (disk[i].index == (if i == 0 then 0 else disk[i - 1].index) + k && Spaced(k, disk, i + 1))
  }

  /** What a recovery leaves behind: files that tile the log, one snapCount apart from where it
      began, and the persisted indices as they were. */
  ghost predicate Chained(cfg: Config, log: seq<Entry>, n: Node, o: Outcome)
    requires cfg.snapCount > 0
  {
    var m := o.node;
    && n.disk <= m.disk && Spaced(cfg.snapCount, m.disk, |n.disk|)
    && Tiled(cfg, log, m.disk)
    && m.walCommit == n.walCommit && m.storageCommit == n.storageCommit
    && (o.Running? ==> Tiling(cfg, log, m))
  }

  ghost predicate KeepsOrder(log: seq<Entry>, n: Node, o: Outcome) {
    o.Running? && Ordered(log, n) ==> Ordered(log, o.node)
  }

  lemma ChainedFurther(cfg: Config, log: seq<Entry>, n: Node, m: Node, s: Snapshot, o: Outcome)
    requires cfg.snapCount > 0 && Chained(cfg, log, m, o)
    requires m.disk == n.disk + [s] && s.index == LastSnapshot(n.disk) + cfg.snapCount
    requires m.walCommit == n.walCommit && m.storageCommit == n.storageCommit
    ensures Chained(cfg, log, n, o)
  {
    var d := o.node.disk;
    assert m.disk <= d && d[|n.disk|] == m.disk[|n.disk|] == s;
    assert |n.disk| > 0 ==> d[|n.disk| - 1] == n.disk[|n.disk| - 1];
  }

  lemma TakeOverChains(cfg: Config, log: seq<Entry>, n: Node, s: Snapshot, es: seq<Entry>)
    requires Setting(cfg, log) && Tiling(cfg, log, n)
    requires Genuine(cfg, log, s) && s.index == n.snapshotIndex + cfg.snapCount
    requires Missing(n.committedIndex, s) == Some(es) && CommitEntries(cfg, n, es).Some?
    ensures var m, c := TakeOver(cfg, n, s, es).value, CommitEntries(cfg, n, es).value;
            && Chained(cfg, log, n, Running(c)) && KeepsOrder(log, n, Running(c)) && c.snapshotIndex == n.snapshotIndex
            && Chained(cfg, log, n, Running(m)) && Ordered(log, m) && m.snapshotIndex == m.committedIndex == s.index
  {
    TakeOverTiles(cfg, log, n, s, es);
    var m := TakeOver(cfg, n, s, es).value;
    ChainedFurther(cfg, log, n, m, s, Running(m));
  }

  /** A panic or a crash while entries are committed leaves every file and the other indices as they were. */
  lemma {:induction false} PanicFrame(cfg: Config, n: Node, es: seq<Entry>)
    ensures var o := Panicked(cfg, n, es);
            && o.Halted?
            && o.node == n.(ledger := o.node.ledger, lastHeight := o.node.lastHeight,
                            committedIndex := o.node.committedIndex)
  {
    if es != [] {
      var init := es[..|es| - 1];
      if CommitEntries(cfg, n, init).Some? {
        CommitFrame(cfg, n, init);
      } else {
        PanicFrame(cfg, n, init);
      }
    }
  }

  lemma CutFrame(cfg: Config, n: Node, es: seq<Entry>, c: Crash)
    ensures var o := CommitCut(cfg, n, es, c);
            && !o.Running?
            && o.node == n.(ledger := o.node.ledger, lastHeight := o.node.lastHeight,
                            committedIndex := o.node.committedIndex)
  {
    if CommitEntries(cfg, n, Prefix(es, c.entries)).Some? {
      CommitFrame(cfg, n, Prefix(es, c.entries));
    } else {
      PanicFrame(cfg, n, Prefix(es, c.entries));
    }
  }

  lemma PanicChained(cfg: Config, log: seq<Entry>, n: Node, es: seq<Entry>)
    requires cfg.snapCount > 0 && Tiling(cfg, log, n)
    ensures Chained(cfg, log, n, Panicked(cfg, n, es)) && !Panicked(cfg, n, es).Running?
  {
    PanicFrame(cfg, n, es);
  }

  lemma CutChained(cfg: Config, log: seq<Entry>, n: Node, es: seq<Entry>, c: Crash)
    requires cfg.snapCount > 0 && Tiling(cfg, log, n)
    ensures Chained(cfg, log, n, CommitCut(cfg, n, es, c)) && !CommitCut(cfg, n, es, c).Running?
  {
    CutFrame(cfg, n, es, c);
  }

  lemma {:induction false} SpacedOnward(k: nat, a: seq<Snapshot>, d: seq<Snapshot>, i: nat)
    requires a <= d && Spaced(k, a, i) && Spaced(k, d, |a|) && i <= |a|
    ensures Spaced(k, d, i)
    decreases |a| - i
  {
    if i < |a| {
      SpacedOnward(k, a, d, i + 1);
    }
  }

  lemma ChainedAfter(cfg: Config, log: seq<Entry>, n: Node, m: Node, o: Outcome)
    requires cfg.snapCount > 0 && Chained(cfg, log, n, Running(m)) && Chained(cfg, log, m, o)
    ensures Chained(cfg, log, n, o)
  {
    SpacedOnward(cfg.snapCount, m.disk, o.node.disk, |n.disk|);
  }

  /** Every accepted answer brings the node exactly snapCount nearer to the target. */
  lemma AnswerChains(cfg: Config, log: seq<Entry>, n: Node, r: Reply)
    requires Setting(cfg, log) && Tiling(cfg, log, n)
    requires r.Reply? || r.Cut? ==> Genuine(cfg, log, r.snap) && r.snap.index == n.snapshotIndex + cfg.snapCount
    ensures var t := Answer(cfg, n, r);
            var o := if t.Again? then Running(t.node) else t.outcome;
            && Chained(cfg, log, n, o) && KeepsOrder(log, n, o)
            && (o.Running? ==>
                  o.node.snapshotIndex == n.snapshotIndex + if r.Reply? && t.Again? then cfg.snapCount else 0)
  {
    if (r.Cut? || r.Reply?) && Missing(n.committedIndex, r.snap).Some? {
      var es := Missing(n.committedIndex, r.snap).value;
      if r.Cut? {
        CutChained(cfg, log, n, es, r.crash);
      } else if CommitEntries(cfg, n, es).Some? {
        TakeOverChains(cfg, log, n, r.snap, es);
      } else {
        PanicChained(cfg, log, n, es);
      }
    }
  }

  /** What fetching snapshots below a target keeps. */
  ghost predicate ChainKept(cfg: Config, log: seq<Entry>, n: Node, target: nat, o: Outcome)
    requires cfg.snapCount > 0
  {
    && Chained(cfg, log, n, o) && KeepsOrder(log, n, o)
    && (o.Running? && n.snapshotIndex < target ==> o.node.snapshotIndex < target)
  }

  /** One turn more, from m on. */
  lemma TurnChains(cfg: Config, log: seq<Entry>, n: Node, m: Node, target: nat, o: Outcome)
    requires Setting(cfg, log) && n.snapshotIndex + cfg.snapCount < target
    requires Chained(cfg, log, n, Running(m)) && KeepsOrder(log, n, Running(m))
    requires m.snapshotIndex <= n.snapshotIndex + cfg.snapCount && ChainKept(cfg, log, m, target, o)
    ensures ChainKept(cfg, log, n, target, o)
  {
    ChainedAfter(cfg, log, n, m, o);
  }

  /** The chain of fetched snapshots stops below the target: the last stretch is left to the
      snapshot the chain was fetched for. */
  lemma {:induction false} ChaseChains(cfg: Config, log: seq<Entry>, n: Node, target: nat, replies: seq<Reply>)
    requires Setting(cfg, log) && Tiling(cfg, log, n)
    requires Honest(cfg, log, n.snapshotIndex + cfg.snapCount, replies)
    ensures ChainKept(cfg, log, n, target, Chase(cfg, n, target, replies))
    decreases |replies|
  {
    if n.snapshotIndex + cfg.snapCount < target && replies != [] {
      AnswerChains(cfg, log, n, replies[0]);
      var t := Answer(cfg, n, replies[0]);
      if t.Again? {
        ChaseChains(cfg, log, t.node, target, replies[1..]);
        TurnChains(cfg, log, n, t.node, target, Chase(cfg, t.node, target, replies[1..]));
      }
    }
  }

  /** A recovery towards s that ends with its index has committed all of it. */
  ghost predicate Caught(cfg: Config, log: seq<Entry>, n: Node, s: Snapshot, o: Outcome)
    requires cfg.snapCount > 0
  {
    && Chained(cfg, log, n, o)
    && (o.Running? && n.snapshotIndex < s.index == o.node.snapshotIndex ==> o.node.committedIndex == s.index)
  }

  lemma FinishChains(cfg: Config, log: seq<Entry>, n: Node, s: Snapshot, cut: Option<Crash>)
    requires Setting(cfg, log) && Tiling(cfg, log, n) && Genuine(cfg, log, s)
    ensures var o := FinishRecovery(cfg, n, s, cut); Caught(cfg, log, n, s, o) && KeepsOrder(log, n, o)
  {
    var r := Missing(n.committedIndex, s);
    if n.snapshotIndex + cfg.snapCount == s.index && r.Some? {
      if cut.Some? {
        CutChained(cfg, log, n, r.value, cut.value);
      } else if CommitEntries(cfg, n, r.value).Some? {
        TakeOverChains(cfg, log, n, s, r.value);
      } else {
        PanicChained(cfg, log, n, r.value);
      }
    }
  }

  lemma ChaseAndFinishChains(cfg: Config, log: seq<Entry>, n: Node, s: Snapshot, replies: seq<Reply>,
                             cut: Option<Crash>)
    requires Setting(cfg, log) && Tiling(cfg, log, n) && Genuine(cfg, log, s)
    requires Honest(cfg, log, n.snapshotIndex + cfg.snapCount, replies)
    ensures var o := ChaseAndFinish(cfg, n, s, replies, cut); Caught(cfg, log, n, s, o) && KeepsOrder(log, n, o)
  {
    ChaseChains(cfg, log, n, s.index, replies);
    var o := Chase(cfg, n, s.index, replies);
    if o.Running? {
      FinishChains(cfg, log, o.node, s, cut);
      ChainedAfter(cfg, log, n, o.node, FinishRecovery(cfg, o.node, s, cut));
    }
  }

  /** Recovering keeps the snapshot index behind the commit index if it started from a saved commit
      index that was not behind the last snapshot. */
  ghost predicate Carries(cfg: Config, log: seq<Entry>, n: Node, s: Snapshot, o: Outcome)
    requires cfg.snapCount > 0
  {
    Caught(cfg, log, n, s, o) && (n.snapshotIndex <= n.storageCommit <= |log| ==> KeepsOrder(log, n, o))
  }

  lemma RecoverChains(cfg: Config, log: seq<Entry>, n: Node, s: Snapshot, replies: seq<Reply>, cut: Option<Crash>)
    requires Setting(cfg, log) && Tiling(cfg, log, n) && Genuine(cfg, log, s)
    requires Honest(cfg, log, n.snapshotIndex + cfg.snapCount, replies)
    ensures Carries(cfg, log, n, s, Recover(cfg, n, s, replies, cut))
  {
    var n0 := n.(committedIndex := n.storageCommit);
    ChaseAndFinishChains(cfg, log, n0, s, replies, cut);
    FinishChains(cfg, log, n0, s, cut);
    SetBackChains(cfg, log, n, s, ChaseAndFinish(cfg, n0, s, replies, cut));
    SetBackChains(cfg, log, n, s, FinishRecovery(cfg, n0, s, cut));
    AsItWas(cfg, log, n, s);
    RecoverIs(cfg, n, s, replies, cut);
  }

  lemma RecoverIs(cfg: Config, n: Node, s: Snapshot, replies: seq<Reply>, cut: Option<Crash>)
    requires cfg.snapCount > 0
    ensures var o, n0 := Recover(cfg, n, s, replies, cut), n.(committedIndex := n.storageCommit);
            o == Running(n) || o == ChaseAndFinish(cfg, n0, s, replies, cut) || o == FinishRecovery(cfg, n0, s, cut)
  {
  }

  lemma AsItWas(cfg: Config, log: seq<Entry>, n: Node, s: Snapshot)
    requires cfg.snapCount > 0 && Tiling(cfg, log, n)
    ensures Carries(cfg, log, n, s, Running(n))
  {
  }

  lemma SetBackChains(cfg: Config, log: seq<Entry>, n: Node, s: Snapshot, o: Outcome)
    requires cfg.snapCount > 0
    requires var n0 := n.(committedIndex := n.storageCommit); Caught(cfg, log, n0, s, o) && KeepsOrder(log, n0, o)
    ensures Carries(cfg, log, n, s, o)
  {
  }

  // ---------------------------------------------------------------- whole runs

  /** A leader that answers what it is asked. */
  ghost predicate HonestLeader(cfg: Config, log: seq<Entry>, n: Node, rd: Ready, w: World)
    requires cfg.snapCount > 0
  {
    (rd.snapshot.Some? ==> Genuine(cfg, log, rd.snapshot.value))
    && Honest(cfg, log, n.snapshotIndex + cfg.snapCount, w.replies)
  }

  lemma ReceiveChains(cfg: Config, log: seq<Entry>, n: Node, rd: Ready, w: World)
    requires Setting(cfg, log) && Tiling(cfg, log, n) && HonestLeader(cfg, log, n, rd, w)
    ensures var o := Receive(cfg, n, rd, w);
            && Chained(cfg, log, n, o)
            && (rd.snapshot.None? || n.snapshotIndex <= n.storageCommit <= |log| ==> KeepsOrder(log, n, o))
  {
    if rd.snapshot.Some? {
      RecoverChains(cfg, log, n, rd.snapshot.value, w.replies, w.cut);
    }
  }

  lemma ProceedTiles(cfg: Config, log: seq<Entry>, o: Outcome, rd: Ready, w: World, lo: nat, hi: nat)
    requires Setting(cfg, log) && lo <= hi <= |log| && rd.committed == Stretch(log, lo, hi)
    requires o.Running? && Tiling(cfg, log, o.node)
    ensures var p := Proceed(cfg, log, o, rd, w);
            && !p.Down? && (if p.Running? then Tiling(cfg, log, p.node) else Tiled(cfg, log, p.node.disk))
            && KeepsOrder(log, o.node, p)
  {
    if CommitEntries(cfg, o.node, rd.committed).Some? {
      EntriesWithin(cfg, o.node, log, lo, hi);
      var m := SaveHardState(CommitEntries(cfg, o.node, rd.committed).value, rd.hard);
      TriggerTiles(cfg, log, m, w.savedSnapshot);
    } else {
      PanicFrame(cfg, o.node, rd.committed);
    }
  }

  lemma BreakOffTiles(cfg: Config, log: seq<Entry>, n: Node, o: Outcome, rd: Ready, c: Crash)
    requires cfg.snapCount > 0 && Chained(cfg, log, n, o)
    ensures var p := BreakOff(cfg, o, rd, c);
            !p.Running? && Tiled(cfg, log, p.node.disk) && p.node.walCommit == n.walCommit
  {
    if o.Running? {
      CutFrame(cfg, o.node, rd.committed, c);
    }
  }

  lemma TilesEndAtMultiples(cfg: Config, log: seq<Entry>, disk: seq<Snapshot>)
    requires cfg.snapCount > 0 && Tiled(cfg, log, disk)
    ensures Multiple(LastSnapshot(disk), cfg.snapCount)
  {
  }

  /** Over files that tile the log, a restart is refused if the saved commit index is below the last
      snapshot, and otherwise finds every index in its place. */
  lemma RestartTiles(cfg: Config, log: seq<Entry>, n: Node)
    requires cfg.snapCount > 0 && Tiled(cfg, log, n.disk) && n.walCommit <= |log|
    ensures if n.walCommit < LastSnapshot(n.disk) then Restart(n) == Down(n, None)
            else
              var o := Restart(n);
              o.Running? && Tiling(cfg, log, o.node) && Ordered(log, o.node)
              && o.node.committedIndex == o.node.storageCommit == o.node.walCommit
  {
    TilesEndAtMultiples(cfg, log, n.disk);
  }

  /** A run in which all leaders are honest. */
  ghost predicate HonestStep(cfg: Config, log: seq<Entry>, st: Stage, step: Step)
    requires cfg.snapCount > 0
  {
    && Allowed(cfg, log, st, step)
    && (step.Handle? || step.Interrupt? ==> HonestLeader(cfg, log, st.outcome.node, step.rd, step.w))
  }

  ghost predicate IsHonestRun(cfg: Config, log: seq<Entry>, st: Stage, steps: seq<Step>)
    requires cfg.snapCount > 0
    ensures IsHonestRun(cfg, log, st, steps) ==> IsRun(cfg, log, st, steps)
    decreases |steps|
  {
    steps == [] ||
    (HonestStep(cfg, log, st, steps[0]) && IsHonestRun(cfg, log, After(cfg, log, st, steps[0]), steps[1..]))
  }

  /** The guard: when a snapshot arrives, the commit index saved in the storage is not behind the
      node's own last snapshot. */
  ghost predicate InTime(st: Stage, step: Step) {
    step.Handle? && step.rd.snapshot.Some? && st.outcome.Running? ==>
      st.outcome.node.snapshotIndex <= st.outcome.node.storageCommit
  }

  ghost predicate SavedInTime(cfg: Config, log: seq<Entry>, st: Stage, steps: seq<Step>)
    requires cfg.snapCount > 0 && IsRun(cfg, log, st, steps)
    decreases |steps|
  {
    steps == [] || (InTime(st, steps[0]) && SavedInTime(cfg, log, After(cfg, log, st, steps[0]), steps[1..]))
  }

  ghost predicate TilingStage(cfg: Config, log: seq<Entry>, st: Stage)
    requires cfg.snapCount > 0
  {
    Tiled(cfg, log, st.outcome.node.disk) && (st.outcome.Running? ==> Tiling(cfg, log, st.outcome.node))
  }

  ghost predicate OrderedStage(log: seq<Entry>, st: Stage) {
    st.outcome.Running? ==> Ordered(log, st.outcome.node)
  }

  lemma StepTiles(cfg: Config, l0: State, log: seq<Entry>, st: Stage, step: Step)
    requires Setting(cfg, log) && Safe(cfg, l0, log, st) && TilingStage(cfg, log, st) && HonestStep(cfg, log, st, step)
    ensures TilingStage(cfg, log, After(cfg, log, st, step))
    ensures OrderedStage(log, st) && InTime(st, step) ==> OrderedStage(log, After(cfg, log, st, step))
  {
    match step
    case Handle(rd, w, lo, hi) =>
      var n := st.outcome.node;
      ReceiveChains(cfg, log, n, rd, w);
      var o := Receive(cfg, n, rd, w);
      if o.Running? {
        ProceedTiles(cfg, log, o, rd, w, lo, hi);
      }
    case Interrupt(rd, w, lo, hi, c) =>
      var n := st.outcome.node;
      ReceiveChains(cfg, log, n, rd, w);
      BreakOffTiles(cfg, log, n, Receive(cfg, n, rd, w), rd, c);
    case PowerOff =>
    case Boot => RestartTiles(cfg, log, st.outcome.node);
    case Change(_) =>
  }

  lemma {:induction false} RunsTile(cfg: Config, l0: State, log: seq<Entry>, st: Stage, steps: seq<Step>)
    requires Setting(cfg, log) && Safe(cfg, l0, log, st) && TilingStage(cfg, log, st)
    requires IsHonestRun(cfg, log, st, steps)
    ensures TilingStage(cfg, log, RunFrom(cfg, log, st, steps))
    ensures OrderedStage(log, st) && SavedInTime(cfg, log, st, steps) ==>
              OrderedStage(log, RunFrom(cfg, log, st, steps))
    decreases |steps|
  {
    if steps != [] {
      StepTiles(cfg, l0, log, st, steps[0]);
      StepKeeps(cfg, l0, log, st, steps[0]);
      RunsTile(cfg, l0, log, After(cfg, log, st, steps[0]), steps[1..]);
    }
  }

  /** Over any run with honest leaders - deliveries, re-deliveries, recoveries, crashes, panics,
      restarts, local changes - the snapshot index is a multiple of snapCount, and the snapshot files
      of a node hold exactly the log up to that index. And it is never ahead of the commit index,
      provided the saved commit index was never behind it when a snapshot came in. */
  lemma SnapshotsTileTheLog(cfg: Config, l0: State, log: seq<Entry>, steps: seq<Step>)
    requires Setting(cfg, log) && IsHonestRun(cfg, log, Fresh(l0), steps)
    ensures var o := RunFrom(cfg, log, Fresh(l0), steps).outcome;
            && (o.Running? ==>
                  var n := o.node;
                  && n.snapshotIndex % cfg.snapCount == 0 && n.snapshotIndex <= |log|
                  && Rebuilt(n.disk) == log[..n.snapshotIndex]
                  && (SavedInTime(cfg, log, Fresh(l0), steps) ==> n.snapshotIndex <= n.committedIndex))
            && (!o.Running? ==>
                  LastSnapshot(o.node.disk) <= |log| && Rebuilt(o.node.disk) == log[..LastSnapshot(o.node.disk)])
  {
    RunsTile(cfg, l0, log, Fresh(l0), steps);
    var o := RunFrom(cfg, log, Fresh(l0), steps).outcome;
    TilesRebuildTheLog(cfg, log, o.node.disk);
    if o.Running? {
      MultipleIffNoRemainder(o.node.snapshotIndex, cfg.snapCount);
    }
  }

  // ---------------------------------------------------------------- when raft hands over all at once

  ghost predicate Indices(cfg: Config, log: seq<Entry>, n: Node)
    requires cfg.snapCount > 0
  {
    Tiling(cfg, log, n) && Ordered(log, n)
  }

  /** Between two Readys all commit indices agree. */
  ghost predicate Steady(cfg: Config, log: seq<Entry>, n: Node)
    requires cfg.snapCount > 0
  {
    Indices(cfg, log, n) && n.committedIndex == n.storageCommit == n.walCommit
  }

  /** What raft does when it hands over all that is committed at once: no gap behind the node, and
      the hard state, if it changed, names the last entry handed over. */
  ghost predicate Prompt(o: Outcome, rd: Ready, lo: nat, hi: nat) {
    o.Running? ==>
      var c := Max(o.node.committedIndex, hi);
      lo <= o.node.committedIndex && (rd.hard == Some(c) || (rd.hard == None && o.node.walCommit == c))
  }

  lemma ProceedSteady(cfg: Config, log: seq<Entry>, n: Node, o: Outcome, rd: Ready, w: World, lo: nat, hi: nat)
    requires Setting(cfg, log) && Decodable(log) && Steady(cfg, log, n)
    requires Chained(cfg, log, n, o) && KeepsOrder(log, n, o)
    requires lo <= hi <= |log| && rd.committed == Stretch(log, lo, hi) && Prompt(o, rd, lo, hi)
    ensures var p := Proceed(cfg, log, o, rd, w); p.Running? ==> Steady(cfg, log, p.node)
  {
    if o.Running? && CommitEntries(cfg, o.node, rd.committed).Some? {
      EntriesReach(cfg, o.node, log, lo, hi);
      var m := SaveHardState(CommitEntries(cfg, o.node, rd.committed).value, rd.hard);
      TriggerTiles(cfg, log, m, w.savedSnapshot);
      MaybeSnapshotFrame(cfg, log, m, w.savedSnapshot);
    } else if o.Running? {
      PanicFrame(cfg, o.node, rd.committed);
    }
  }

  /** The steps of a run with a prompt raft and honest leaders. */
  ghost predicate Orderly(cfg: Config, log: seq<Entry>, st: Stage, step: Step)
    requires cfg.snapCount > 0
  {
    && HonestStep(cfg, log, st, step)
    && (step.Handle? ==> Prompt(Receive(cfg, st.outcome.node, step.rd, step.w), step.rd, step.lo, step.hi))
  }

  ghost predicate IsOrderlyRun(cfg: Config, log: seq<Entry>, st: Stage, steps: seq<Step>)
    requires cfg.snapCount > 0
    ensures IsOrderlyRun(cfg, log, st, steps) ==> IsHonestRun(cfg, log, st, steps)
    decreases |steps|
  {
    steps == [] ||
    (Orderly(cfg, log, st, steps[0]) && IsOrderlyRun(cfg, log, After(cfg, log, st, steps[0]), steps[1..]))
  }

  ghost predicate SteadyStage(cfg: Config, log: seq<Entry>, st: Stage)
    requires cfg.snapCount > 0
  {
    TilingStage(cfg, log, st) && (st.outcome.Running? ==> Steady(cfg, log, st.outcome.node))
  }

  lemma StepSteady(cfg: Config, l0: State, log: seq<Entry>, st: Stage, step: Step)
    requires Setting(cfg, log) && Decodable(log) && Safe(cfg, l0, log, st) && SteadyStage(cfg, log, st)
    requires Orderly(cfg, log, st, step)
    ensures SteadyStage(cfg, log, After(cfg, log, st, step))
  {
    StepTiles(cfg, l0, log, st, step);
    match step
    case Handle(rd, w, lo, hi) =>
      var n := st.outcome.node;
      ReceiveChains(cfg, log, n, rd, w);
      ProceedSteady(cfg, log, n, Receive(cfg, n, rd, w), rd, w, lo, hi);
    case Interrupt(rd, w, lo, hi, c) =>
      var n := st.outcome.node;
      ReceiveChains(cfg, log, n, rd, w);
      BreakOffTiles(cfg, log, n, Receive(cfg, n, rd, w), rd, c);
    case PowerOff =>
    case Boot => RestartTiles(cfg, log, st.outcome.node);
    case Change(_) =>
  }

  lemma {:induction false} RunsAreSteady(cfg: Config, l0: State, log: seq<Entry>, st: Stage, steps: seq<Step>)
    requires Setting(cfg, log) && Decodable(log) && Safe(cfg, l0, log, st) && SteadyStage(cfg, log, st)
    requires IsOrderlyRun(cfg, log, st, steps)
    ensures SteadyStage(cfg, log, RunFrom(cfg, log, st, steps)) && Safe(cfg, l0, log, RunFrom(cfg, log, st, steps))
    decreases |steps|
  {
    if steps != [] {
      StepSteady(cfg, l0, log, st, steps[0]);
      StepKeeps(cfg, l0, log, st, steps[0]);
      RunsAreSteady(cfg, l0, log, After(cfg, log, st, steps[0]), steps[1..]);
    }
  }

  /** Then all commit indices of a running node agree after every step, and the guard above is met:
      the snapshot index is never ahead of them. */
  lemma IndicesAgree(cfg: Config, l0: State, log: seq<Entry>, steps: seq<Step>)
    requires Setting(cfg, log) && Decodable(log) && IsOrderlyRun(cfg, log, Fresh(l0), steps)
    ensures var o := RunFrom(cfg, log, Fresh(l0), steps).outcome;
            o.Running? ==>
              var n := o.node;
              n.snapshotIndex <= n.committedIndex == n.walCommit == n.storageCommit <= |log|
  {
    RunsAreSteady(cfg, l0, log, Fresh(l0), steps);
  }
}
