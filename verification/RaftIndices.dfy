/** The indices of a node, step by step: how far committing takes them, what a Ready saves, and what
    becomes of snapshots that carry nothing. */
module RaftIndices {
  import opened Options
  import opened Ledger
  import opened Multiples
  import opened RaftSpec
  import opened RaftSafety
  import opened RaftSnapshots
  import opened RaftRecovery
  import opened RaftCatchUp

  // ---------------------------------------------------------------- entries that do not decode

  /** How far the commit index stays behind entry hi: one for each entry that does not decode since the last
      one that moved it to its own index - and a block seen before moves it by one only. */
  ghost function Lag(cfg: Config, p: Past, log: seq<Entry>, applied: nat, lo: nat, hi: nat): nat
    requires lo <= hi <= |log| && applied <= |log|
    decreases hi
  {
    if lo == hi then 0
    else match log[hi - 1].kind
      case NoData => 0
      case ConfChange => 0
      case Undecodable => Lag(cfg, p, log, applied, lo, hi - 1) + 1
      case BlockData(_) =>
        var l := Story(cfg, p, log, Max(applied, hi - 1));
        if l.Some? && Stale(l.value, log[hi - 1]) then Lag(cfg, p, log, applied, lo, hi - 1) else 0
  }

  lemma {:induction false} RangeLags(cfg: Config, p: Past, log: seq<Entry>, n: Node, applied: nat, hi: nat)
    requires Setting(cfg, log) && LedgerInv(cfg, p, log, n, applied) && n.committedIndex <= hi <= |log|
    requires CommitRange(cfg, n, log, n.committedIndex, hi).Some?
    ensures var m := CommitRange(cfg, n, log, n.committedIndex, hi).value;
            m.committedIndex + Lag(cfg, p, log, applied, n.committedIndex, hi) == hi
    decreases hi
  {
    var lo := n.committedIndex;
    if lo < hi {
      RangeLags(cfg, p, log, n, applied, hi - 1);
      RangeCommitted(cfg, p, log, n, applied, lo, hi - 1);
    }
  }

  /** Exactly so far does committing take a node, whatever is among the entries. */
  lemma CommittedLags(cfg: Config, p: Past, log: seq<Entry>, n: Node, applied: nat, hi: nat)
    requires Setting(cfg, log) && LedgerInv(cfg, p, log, n, applied) && n.committedIndex <= hi <= |log|
    requires CommitEntries(cfg, n, Stretch(log, n.committedIndex, hi)).Some?
    ensures var m := CommitEntries(cfg, n, Stretch(log, n.committedIndex, hi)).value;
            m.committedIndex + Lag(cfg, p, log, applied, n.committedIndex, hi) == hi
  {
    RangeIs(cfg, n, log, n.committedIndex, hi);
    RangeLags(cfg, p, log, n, applied, hi);
  }

  // ---------------------------------------------------------------- what a Ready saves

  /** A hard state goes to the write-ahead log as it is, and to the raft storage with its commit index
      lowered to the node's own; without one both stay. */
  lemma SavedIndices(cfg: Config, log: seq<Entry>, n: Node, rd: Ready, w: World)
    requires cfg.snapCount > 0
    ensures var o := HandleReady(cfg, log, n, rd, w);
            o.Running? ==>
              match rd.hard
              case None => o.node.walCommit == n.walCommit && o.node.storageCommit == n.storageCommit
              case Some(c) =>
                && o.node.walCommit == c && o.node.storageCommit <= c && o.node.storageCommit <= o.node.committedIndex
                && (o.node.storageCommit == c || o.node.storageCommit == o.node.committedIndex)
  {
    ReceiveSameStorage(cfg, n, rd, w);
    var r := Receive(cfg, n, rd, w);
    if r.Running? && CommitEntries(cfg, r.node, rd.committed).Some? {
      CommitFrame(cfg, r.node, rd.committed);
      MaybeSnapshotFrame(cfg, log, SaveHardState(CommitEntries(cfg, r.node, rd.committed).value, rd.hard),
                         w.savedSnapshot);
    }
  }

  lemma ReceiveSameStorage(cfg: Config, n: Node, rd: Ready, w: World)
    requires cfg.snapCount > 0
    ensures var o := Receive(cfg, n, rd, w);
            o.node.walCommit == n.walCommit && o.node.storageCommit == n.storageCommit
  {
    if rd.snapshot.Some? {
      RecoverSameStorage(cfg, n, rd.snapshot.value, w.replies, w.cut);
    }
  }

  /** What the raft storage has saved is never ahead of the node. */
  ghost predicate SavedBehind(o: Outcome) {
    o.Running? ==> o.node.storageCommit <= o.node.committedIndex
  }

  lemma RecoverStaysAhead(cfg: Config, p: Past, log: seq<Entry>, n: Node, applied: nat, s: Snapshot,
                          replies: seq<Reply>, cut: Option<Crash>)
    requires Setting(cfg, log) && GenuineOrEmpty(cfg, log, s) && GenuineReplies(cfg, log, replies)
    requires LedgerInv(cfg, p, log, n, applied) && n.storageCommit <= applied && n.storageCommit <= n.committedIndex
    ensures SavedBehind(Recover(cfg, n, s, replies, cut))
  {
    var n0 := n.(committedIndex := n.storageCommit);
    RecoverIs(cfg, n, s, replies, cut);
    FinishKeeps(cfg, p, log, n0, applied, s, cut);
    ChaseKeeps(cfg, p, log, n0, applied, s.index, replies);
    var o := Chase(cfg, n0, s.index, replies);
    if o.Running? {
      FinishKeeps(cfg, p, log, o.node, Max(applied, o.node.committedIndex), s, cut);
    }
  }

  lemma StepSavesBehind(cfg: Config, l0: State, log: seq<Entry>, st: Stage, step: Step)
    requires Setting(cfg, log) && Safe(cfg, l0, log, st) && Allowed(cfg, log, st, step) && SavedBehind(st.outcome)
    ensures SavedBehind(After(cfg, log, st, step).outcome)
  {
    if step.Handle? {
      var n, rd, w := st.outcome.node, step.rd, step.w;
      SavedIndices(cfg, log, n, rd, w);
      if rd.snapshot.Some? {
        RecoverStaysAhead(cfg, Past(l0, st.marks), log, n, st.applied, rd.snapshot.value, w.replies, w.cut);
      }
      ReceiveSameStorage(cfg, n, rd, w);
      if Receive(cfg, n, rd, w).Running? {
        ProceedsOn(cfg, log, Receive(cfg, n, rd, w), rd, w);
      }
    } else if step.Interrupt? {
      BreaksOff(cfg, Receive(cfg, st.outcome.node, step.rd, step.w), step.rd, step.crash);
    }
  }

  lemma ProceedsOn(cfg: Config, log: seq<Entry>, o: Outcome, rd: Ready, w: World)
    requires cfg.snapCount > 0 && o.Running?
    ensures var r := Proceed(cfg, log, o, rd, w); r.Running? ==> o.node.committedIndex <= r.node.committedIndex
  {
    if CommitEntries(cfg, o.node, rd.committed).Some? {
      CommitFrame(cfg, o.node, rd.committed);
      MaybeSnapshotFrame(cfg, log, SaveHardState(CommitEntries(cfg, o.node, rd.committed).value, rd.hard),
                         w.savedSnapshot);
    }
  }

  lemma BreaksOff(cfg: Config, o: Outcome, rd: Ready, c: Crash)
    ensures !BreakOff(cfg, o, rd, c).Running?
  {
    if o.Running? {
      CutFrame(cfg, o.node, rd.committed, c);
    }
  }

  lemma {:induction false} RunsSaveBehind(cfg: Config, l0: State, log: seq<Entry>, st: Stage, steps: seq<Step>)
    requires Setting(cfg, log) && Safe(cfg, l0, log, st) && IsRun(cfg, log, st, steps) && SavedBehind(st.outcome)
    ensures SavedBehind(RunFrom(cfg, log, st, steps).outcome)
    decreases |steps|
  {
    if steps != [] {
      StepSavesBehind(cfg, l0, log, st, steps[0]);
      StepKeeps(cfg, l0, log, st, steps[0]);
      RunsSaveBehind(cfg, l0, log, After(cfg, log, st, steps[0]), steps[1..]);
    }
  }

  // ---------------------------------------------------------------- snapshots without data

  /** A Ready with an empty snapshot is one without; a snapshot that carries no entries, or none the node
      lacks, recovers nothing, but the raft storage is moved to it all the same. */
  lemma NothingToRecover(cfg: Config, log: seq<Entry>, n: Node, rd: Ready, w: World)
    requires cfg.snapCount > 0 && rd.snapshot.Some?
    ensures var s, plain := rd.snapshot.value, rd.(snapshot := None);
            var moved := n.(firstIndex := Max(n.firstIndex, s.index + 1));
            && (s.index == 0 ==> HandleReady(cfg, log, n, rd, w) == HandleReady(cfg, log, n, plain, w))
            && (s.index > 0 && (s.index <= n.committedIndex || s.entries.None? || s.entries == Some([])) ==>
                  HandleReady(cfg, log, n, rd, w) == HandleReady(cfg, log, moved, plain, w))
  {
  }

  // ---------------------------------------------------------------- the files, whatever the batches

  /** What a Ready without a snapshot does to the files: if snapCount entries have gathered and saving
      succeeds, one more file, with everything from the last one up to the last multiple of snapCount;
      else nothing. */
  lemma FilesAfter(cfg: Config, log: seq<Entry>, n: Node, rd: Ready, w: World, lo: nat, hi: nat)
    requires Setting(cfg, log) && n.committedIndex <= |log| && n.firstIndex == n.snapshotIndex + 1
    requires rd.snapshot.None? && lo <= hi <= |log| && rd.committed == Stretch(log, lo, hi)
    requires Multiple(n.snapshotIndex, cfg.snapCount)
    ensures var o := HandleReady(cfg, log, n, rd, w);
            o.Running? ==>
              var m, a := o.node, o.node.snapshotIndex;
              if w.savedSnapshot && n.snapshotIndex + cfg.snapCount <= m.committedIndex then
                && Multiple(a, cfg.snapCount) && n.snapshotIndex < a <= m.committedIndex < a + cfg.snapCount
                && a <= |log| && m.firstIndex == a + 1
                && m.disk == n.disk + [Snapshot(a, Some(log[n.snapshotIndex..a]))]
              else m.disk == n.disk && a == n.snapshotIndex && m.firstIndex == n.firstIndex
  {
    if CommitEntries(cfg, n, rd.committed).Some? {
      EntriesWithin(cfg, n, log, lo, hi);
      FileOf(cfg, log, SaveHardState(CommitEntries(cfg, n, rd.committed).value, rd.hard), w.savedSnapshot);
    }
  }

  lemma FileOf(cfg: Config, log: seq<Entry>, n: Node, saved: bool)
    requires cfg.snapCount > 0 && n.committedIndex <= |log| && n.firstIndex == n.snapshotIndex + 1
    requires Multiple(n.snapshotIndex, cfg.snapCount)
    ensures var m, a := MaybeSnapshot(cfg, log, n, saved), MaybeSnapshot(cfg, log, n, saved).snapshotIndex;
            && m.committedIndex == n.committedIndex
            && if saved && n.snapshotIndex + cfg.snapCount <= n.committedIndex then
                 && Multiple(a, cfg.snapCount) && n.snapshotIndex < a <= n.committedIndex < a + cfg.snapCount
                 && m.firstIndex == a + 1 && m.disk == n.disk + [Snapshot(a, Some(log[n.snapshotIndex..a]))]
               else m.disk == n.disk && a == n.snapshotIndex && m.firstIndex == n.firstIndex
  {
    var c, k := n.committedIndex, cfg.snapCount;
    MaybeSnapshotFrame(cfg, log, n, saved);
    if n.snapshotIndex + k <= c {
      RoundedDown(c, k);
      var a := c - c % k;
      StretchIsSlice(log, n.snapshotIndex, a);
    }
  }

  // ---------------------------------------------------------------- a piece that cannot be saved

  /** A fetched piece that cannot be saved is committed all the same, but the recovery ends there, in a
      panic unless the leader's snapshot comes right behind it. */
  lemma UnsavedPiece(cfg: Config, p: Past, log: seq<Entry>, n: Node, applied: nat, s: Snapshot, target: Snapshot,
                     rest: seq<Reply>)
    requires Setting(cfg, log) && Decodable(log) && Story(cfg, p, log, |log|).Some?
    requires Arrived(cfg, p, log, applied, n.snapshotIndex, Running(n))
    requires Piece(cfg.snapCount, log, s, n.snapshotIndex) && n.snapshotIndex + cfg.snapCount < target.index
    ensures var o := ChaseAndFinish(cfg, n, target, [Reply(s, false)] + rest, None);
            && o.Down? && o.torn == None && o.node.disk == n.disk && o.node.snapshotIndex == n.snapshotIndex
            && o.node.committedIndex == s.index
            && Story(cfg, p, log, Max(Max(applied, n.committedIndex), s.index)) == Some(o.node.ledger)
  {
    PieceIsGenuine(cfg, log, s, n.snapshotIndex);
    MissingIs(cfg, log, s, n.committedIndex);
    var at := Max(applied, n.committedIndex);
    GoesThrough(cfg, p, log, n, at, n.committedIndex, s.index);
    CommitSlice(cfg, p, log, n, at, n.committedIndex, s.index);
    EntriesReach(cfg, n, log, n.committedIndex, s.index);
    var m := CommitEntries(cfg, n, Stretch(log, n.committedIndex, s.index)).value;
    assert ([Reply(s, false)] + rest)[0] == Reply(s, false);
    assert Answer(cfg, n, Reply(s, false)) == Leave(Running(m));
    assert Chase(cfg, n, target.index, [Reply(s, false)] + rest) == Running(m);
  }
}
