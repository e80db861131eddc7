/** A node that is fed a leader's snapshot keeps up again: over whole runs, recoveries included, its files
    are the log in pieces of snapCount. */
module RaftCatchUp {
  import opened Options
  import opened Ledger
  import opened Multiples
  import opened RaftSpec
  import opened RaftSafety
  import opened RaftSnapshots
  import opened RaftRecovery

  // ---------------------------------------------------------------- what a recovery leaves alone

  /** Where the entries of the raft storage begin is no concern of a recovery. */
  ghost predicate SameStorage(n: Node, o: Outcome) {
    o.node.firstIndex == n.firstIndex && o.node.storageCommit == n.storageCommit && o.node.walCommit == n.walCommit
  }

  lemma CommitsSameStorage(cfg: Config, n: Node, es: seq<Entry>)
    ensures SameStorage(n, Panicked(cfg, n, es))
    ensures CommitEntries(cfg, n, es).Some? ==> SameStorage(n, Running(CommitEntries(cfg, n, es).value))
  {
    PanicFrame(cfg, n, es);
    if CommitEntries(cfg, n, es).Some? {
      CommitFrame(cfg, n, es);
    }
  }

  lemma AnswerSameStorage(cfg: Config, n: Node, r: Reply)
    ensures var t := Answer(cfg, n, r); SameStorage(n, if t.Again? then Running(t.node) else t.outcome)
  {
    if (r.Reply? || r.Cut?) && Missing(n.committedIndex, r.snap).Some? {
      var es := Missing(n.committedIndex, r.snap).value;
      CommitsSameStorage(cfg, n, es);
      if r.Cut? {
        CutFrame(cfg, n, es, r.crash);
      }
    }
  }

  lemma {:induction false} ChaseSameStorage(cfg: Config, n: Node, target: nat, replies: seq<Reply>)
    requires cfg.snapCount > 0
    ensures SameStorage(n, Chase(cfg, n, target, replies))
    decreases |replies|
  {
    if replies != [] {
      AnswerSameStorage(cfg, n, replies[0]);
      var t := Answer(cfg, n, replies[0]);
      if t.Again? {
        ChaseSameStorage(cfg, t.node, target, replies[1..]);
      }
    }
  }

  lemma FinishSameStorage(cfg: Config, n: Node, s: Snapshot, cut: Option<Crash>)
    requires cfg.snapCount > 0
    ensures SameStorage(n, FinishRecovery(cfg, n, s, cut))
  {
    if Missing(n.committedIndex, s).Some? {
      var es := Missing(n.committedIndex, s).value;
      CommitsSameStorage(cfg, n, es);
      if cut.Some? {
        CutFrame(cfg, n, es, cut.value);
      }
    }
  }

  lemma RecoverSameStorage(cfg: Config, n: Node, s: Snapshot, replies: seq<Reply>, cut: Option<Crash>)
    requires cfg.snapCount > 0
    ensures SameStorage(n, Recover(cfg, n, s, replies, cut))
  {
    var n0 := n.(committedIndex := n.storageCommit);
    RecoverIs(cfg, n, s, replies, cut);
    ChaseSameStorage(cfg, n0, s.index, replies);
    FinishSameStorage(cfg, n0, s, cut);
    var o := Chase(cfg, n0, s.index, replies);
    if o.Running? {
      FinishSameStorage(cfg, o.node, s, cut);
    }
  }

  // ---------------------------------------------------------------- the files stay even

  /** One piece taken over. */
  lemma PieceStaysEven(cfg: Config, p: Past, log: seq<Entry>, n: Node, applied: nat, s: Snapshot)
    requires Setting(cfg, log) && Decodable(log) && Story(cfg, p, log, |log|).Some?
    requires Indices(cfg, log, n) && LedgerInv(cfg, p, log, n, applied) && Even(cfg.snapCount, log, n.disk)
    requires n.committedIndex < n.snapshotIndex + cfg.snapCount && Piece(cfg.snapCount, log, s, n.snapshotIndex)
    ensures var r := Missing(n.committedIndex, s);
            && r.Some? && CommitEntries(cfg, n, r.value).Some?
            && Even(cfg.snapCount, log, TakeOver(cfg, n, s, r.value).value.disk)
  {
    TakePiece(cfg, p, log, n, applied, s);
    EvenWith(cfg.snapCount, log, n.disk, s);
  }

  lemma TurnStaysEven(cfg: Config, p: Past, log: seq<Entry>, n: Node, applied: nat, files: seq<Snapshot>)
    requires Setting(cfg, log) && Decodable(log) && Story(cfg, p, log, |log|).Some?
    requires Arrived(cfg, p, log, applied, n.snapshotIndex, Running(n)) && Even(cfg.snapCount, log, n.disk)
    requires Even(cfg.snapCount, log, files) && n.snapshotIndex + cfg.snapCount <= LastSnapshot(files)
    ensures var t := Answer(cfg, n, FileAt(files, n.snapshotIndex + cfg.snapCount));
            t.Again? && Even(cfg.snapCount, log, t.node.disk)
  {
    var k, at := cfg.snapCount, n.snapshotIndex;
    PieceFound(cfg, log, files, at);
    var piece := Snapshot(at + k, Some(Stretch(log, at, at + k)));
    PieceStaysEven(cfg, p, log, n, Max(applied, n.committedIndex), piece);
    TakesOver(cfg, n, piece);
  }

  lemma TakesOver(cfg: Config, n: Node, s: Snapshot)
    requires var r := Missing(n.committedIndex, s); r.Some? && CommitEntries(cfg, n, r.value).Some?
    ensures Answer(cfg, n, Reply(s, true)) == Again(TakeOver(cfg, n, s, Missing(n.committedIndex, s).value).value)
  {
  }

  lemma {:induction false} ChaseStaysEven(cfg: Config, p: Past, log: seq<Entry>, n: Node, applied: nat,
                                          files: seq<Snapshot>, target: nat)
    requires Setting(cfg, log) && Decodable(log) && Story(cfg, p, log, |log|).Some?
    requires Arrived(cfg, p, log, applied, n.snapshotIndex, Running(n)) && Even(cfg.snapCount, log, n.disk)
    requires Even(cfg.snapCount, log, files) && Multiple(target, cfg.snapCount) && target <= LastSnapshot(files)
    requires n.snapshotIndex < target
    ensures var k := cfg.snapCount;
            Even(k, log, Chase(cfg, n, target, Answers(k, files, n.snapshotIndex + k, target)).node.disk)
    decreases target - n.snapshotIndex
  {
    var k := cfg.snapCount;
    MultiplesApart(n.snapshotIndex, target, k);
    if n.snapshotIndex + k < target {
      TurnArrives(cfg, p, log, n, applied, files);
      TurnStaysEven(cfg, p, log, n, applied, files);
      var m := Answer(cfg, n, FileAt(files, n.snapshotIndex + k)).node;
      ChaseTurn(cfg, n, m, target, files);
      ChaseStaysEven(cfg, p, log, m, applied, files, target);
    }
  }

  lemma FinishStaysEven(cfg: Config, p: Past, log: seq<Entry>, n: Node, applied: nat, s: Snapshot)
    requires Setting(cfg, log) && Decodable(log) && Story(cfg, p, log, |log|).Some?
    requires Arrived(cfg, p, log, applied, n.snapshotIndex, Running(n)) && Even(cfg.snapCount, log, n.disk)
    requires Piece(cfg.snapCount, log, s, n.snapshotIndex)
    ensures Even(cfg.snapCount, log, FinishRecovery(cfg, n, s, None).node.disk)
  {
    PieceStaysEven(cfg, p, log, n, Max(applied, n.committedIndex), s);
  }

  lemma ChaseAndFinishEven(cfg: Config, p: Past, log: seq<Entry>, n: Node, applied: nat, files: seq<Snapshot>,
                           s: Snapshot)
    requires Setting(cfg, log) && Decodable(log) && Story(cfg, p, log, |log|).Some?
    requires Arrived(cfg, p, log, applied, n.snapshotIndex, Running(n)) && Even(cfg.snapCount, log, n.disk)
    requires Even(cfg.snapCount, log, files) && s in files && n.snapshotIndex < s.index
    ensures var replies := Answers(cfg.snapCount, files, n.snapshotIndex + cfg.snapCount, s.index);
            Even(cfg.snapCount, log, ChaseAndFinish(cfg, n, s, replies, None).node.disk)
  {
    FilesArePieces(cfg.snapCount, log, files, s);
    ChaseArrives(cfg, p, log, n, applied, files, s.index);
    ChaseStaysEven(cfg, p, log, n, applied, files, s.index);
    var replies := Answers(cfg.snapCount, files, n.snapshotIndex + cfg.snapCount, s.index);
    FinishStaysEven(cfg, p, log, Chase(cfg, n, s.index, replies).node, applied, s);
  }

  lemma GoOnEven(cfg: Config, p: Past, log: seq<Entry>, n: Node, applied: nat, files: seq<Snapshot>, s: Snapshot)
    requires Setting(cfg, log) && Decodable(log) && Story(cfg, p, log, |log|).Some?
    requires Arrived(cfg, p, log, applied, n.snapshotIndex, Running(n)) && Even(cfg.snapCount, log, n.disk)
    requires Even(cfg.snapCount, log, files) && s in files && n.committedIndex < s.index
    ensures s.index >= cfg.snapCount
    ensures var k := cfg.snapCount;
            Even(k, log, GoOn(cfg, n, s, Answers(k, files, n.snapshotIndex + k, s.index), s.index - k).node.disk)
  {
    var k := cfg.snapCount;
    FilesArePieces(k, log, files, s);
    var from := s.index - k;
    if n.committedIndex <= from && n.snapshotIndex <= from {
      ChaseAndFinishEven(cfg, p, log, n, applied, files, s);
    } else {
      OnlyThisPiece(n.snapshotIndex, n.committedIndex, from, k);
      FinishStaysEven(cfg, p, log, n, applied, s);
    }
  }

  /** A snapshot of a leader that keeps up, and its answers to what the node asks for. */
  ghost predicate Fed(cfg: Config, log: seq<Entry>, n: Node, files: seq<Snapshot>, s: Snapshot, w: World)
    requires cfg.snapCount > 0
  {
    && Even(cfg.snapCount, log, files) && s in files && w.cut == None
    && w.replies == Asked(cfg.snapCount, files, n.snapshotIndex + cfg.snapCount, s.index, OwnTerm(n), SnapTerm(s))
  }

  /** A node that has recovered: its ledger is that of the log up to the snapshot, and so are its files. */
  ghost predicate Recouped(cfg: Config, p: Past, log: seq<Entry>, n: Node, applied: nat, s: Snapshot, o: Outcome)
    requires cfg.snapCount > 0
  {
    && o.Running? && Indices(cfg, log, o.node) && o.node.committedIndex == o.node.snapshotIndex == s.index
    && LedgerInv(cfg, p, log, o.node, Max(applied, s.index))
    && Even(cfg.snapCount, log, o.node.disk) && SameStorage(n, o)
  }

  lemma RecoverRecoups(cfg: Config, p: Past, log: seq<Entry>, n: Node, applied: nat, files: seq<Snapshot>,
                       s: Snapshot, w: World)
    requires Setting(cfg, log) && Decodable(log) && TermsGrow(log) && Story(cfg, p, log, |log|).Some?
    requires KeepsUp(cfg, log, n) && LedgerInv(cfg, p, log, n, applied)
    requires Fed(cfg, log, n, files, s, w) && n.committedIndex < s.index
    ensures Recouped(cfg, p, log, n, applied, s, Recover(cfg, n, s, w.replies, w.cut))
  {
    RightAnswers(cfg, log, n, files, s);
    CatchesUp(cfg, p, log, n, applied, files, s);
    RecoverStaysEven(cfg, p, log, n, applied, files, s);
    RecoverSameStorage(cfg, n, s, w.replies, w.cut);
  }

  lemma RecoverStaysEven(cfg: Config, p: Past, log: seq<Entry>, n: Node, applied: nat, files: seq<Snapshot>,
                         s: Snapshot)
    requires Setting(cfg, log) && Decodable(log) && Story(cfg, p, log, |log|).Some?
    requires KeepsUp(cfg, log, n) && LedgerInv(cfg, p, log, n, applied)
    requires Even(cfg.snapCount, log, files) && s in files && n.committedIndex < s.index
    ensures var replies := Answers(cfg.snapCount, files, n.snapshotIndex + cfg.snapCount, s.index);
            Even(cfg.snapCount, log, Recover(cfg, n, s, replies, None).node.disk)
  {
    WithinReach(cfg, p, log, n, applied);
    GoOnEven(cfg, p, log, n.(committedIndex := n.storageCommit), applied, files, s);
    RecoverGoesFrom(cfg, log, n, files, s);
  }

  // ---------------------------------------------------------------- a Ready with a snapshot

  /** Nothing to recover: the snapshot is not ahead of the node. */
  lemma OldSnapshot(cfg: Config, log: seq<Entry>, n: Node, files: seq<Snapshot>, rd: Ready, w: World)
    requires Setting(cfg, log) && KeepsUp(cfg, log, n) && rd.snapshot.Some?
    requires Fed(cfg, log, n, files, rd.snapshot.value, w) && rd.snapshot.value.index <= n.committedIndex
    ensures Receive(cfg, n, rd, w) == Running(n)
  {
    var s := rd.snapshot.value;
    FilesArePieces(cfg.snapCount, log, files, s);
    if n.snapshotIndex < s.index {
      MultiplesApart(n.snapshotIndex, s.index, cfg.snapCount);
    }
  }

  /** What a node is once a snapshot has been received: as steady as before but for the commit indices it
      has saved, and with its raft storage beginning where its files end. */
  ghost predicate Refreshed(cfg: Config, p: Past, log: seq<Entry>, n: Node, applied: nat, o: Outcome)
    requires cfg.snapCount > 0
  {
    && o.Running? && Indices(cfg, log, o.node) && Even(cfg.snapCount, log, o.node.disk)
    && o.node.committedIndex < o.node.snapshotIndex + cfg.snapCount
    && o.node.firstIndex == o.node.snapshotIndex + 1 && n.snapshotIndex <= o.node.snapshotIndex
    && LedgerInv(cfg, p, log, o.node, Max(applied, o.node.committedIndex))
    && o.node.walCommit == n.walCommit && o.node.storageCommit == n.storageCommit
  }

  lemma ReceiveRecoups(cfg: Config, p: Past, log: seq<Entry>, n: Node, applied: nat, files: seq<Snapshot>,
                       rd: Ready, w: World)
    requires Setting(cfg, log) && Decodable(log) && TermsGrow(log) && Story(cfg, p, log, |log|).Some?
    requires KeepsUp(cfg, log, n) && LedgerInv(cfg, p, log, n, applied)
    requires rd.snapshot.Some? && Fed(cfg, log, n, files, rd.snapshot.value, w)
    ensures var o := Receive(cfg, n, rd, w);
            && Refreshed(cfg, p, log, n, applied, o)
            && o.node.committedIndex == Max(n.committedIndex, rd.snapshot.value.index)
  {
    var s := rd.snapshot.value;
    if s.index <= n.committedIndex {
      OldSnapshot(cfg, log, n, files, rd, w);
    } else {
      RecoverRecoups(cfg, p, log, n, applied, files, s, w);
    }
  }

  /** A Ready that brings a node a snapshot of a leader that keeps up, and entries behind it, leaves the
      node keeping up as before: its commit indices agree, its files are the log in pieces of snapCount,
      all but less than snapCount entries, and its raft storage begins right behind them. */
  lemma FedKeepsUp(cfg: Config, p: Past, log: seq<Entry>, n: Node, applied: nat, files: seq<Snapshot>,
                   rd: Ready, w: World, lo: nat, hi: nat)
    requires Setting(cfg, log) && Decodable(log) && TermsGrow(log) && Story(cfg, p, log, |log|).Some?
    requires KeepsUp(cfg, log, n) && LedgerInv(cfg, p, log, n, applied)
    requires rd.snapshot.Some? && Fed(cfg, log, n, files, rd.snapshot.value, w) && w.savedSnapshot
    requires lo <= hi <= |log| && rd.committed == Stretch(log, lo, hi) && hi <= lo + cfg.snapCount
    requires Prompt(Receive(cfg, n, rd, w), rd, lo, hi)
    ensures var o := HandleReady(cfg, log, n, rd, w);
            && o.Running? && KeepsUp(cfg, log, o.node)
            && o.node.committedIndex == Max(Max(n.committedIndex, rd.snapshot.value.index), hi)
  {
    ReceiveRecoups(cfg, p, log, n, applied, files, rd, w);
    var m := Receive(cfg, n, rd, w).node;
    GoesThrough(cfg, p, log, m, Max(applied, m.committedIndex), lo, hi);
    CommittedKeepsUp(cfg, log, m, rd, w, lo, hi);
  }

  /** Where the whole log can be replayed, no block of it makes the node panic. */
  lemma GoesThrough(cfg: Config, p: Past, log: seq<Entry>, n: Node, applied: nat, lo: nat, hi: nat)
    requires Setting(cfg, log) && LedgerInv(cfg, p, log, n, applied) && lo <= hi <= |log| && lo <= n.committedIndex
    requires Story(cfg, p, log, |log|).Some?
    ensures CommitEntries(cfg, n, Stretch(log, lo, hi)).Some?
  {
    CommitSlice(cfg, p, log, n, applied, lo, hi);
    if Story(cfg, p, log, hi) == None {
      StoryPrefix(cfg, p, log, hi, |log|);
      assert false;
    }
  }

  /** The second half of a Ready. */
  lemma CommittedKeepsUp(cfg: Config, log: seq<Entry>, n: Node, rd: Ready, w: World, lo: nat, hi: nat)
    requires Setting(cfg, log) && Decodable(log) && Indices(cfg, log, n) && Even(cfg.snapCount, log, n.disk)
    requires n.committedIndex < n.snapshotIndex + cfg.snapCount && n.firstIndex == n.snapshotIndex + 1
    requires w.savedSnapshot && lo <= hi <= |log| && rd.committed == Stretch(log, lo, hi) && hi <= lo + cfg.snapCount
    requires n.storageCommit == n.walCommit && Prompt(Running(n), rd, lo, hi)
    requires CommitEntries(cfg, n, rd.committed).Some?
    ensures var o := Proceed(cfg, log, Running(n), rd, w);
            && o.Running? && KeepsUp(cfg, log, o.node) && o.node.committedIndex == Max(n.committedIndex, hi)
  {
    EntriesReach(cfg, n, log, lo, hi);
    var m := SaveHardState(CommitEntries(cfg, n, rd.committed).value, rd.hard);
    TriggerEven(cfg, log, m);
    MaybeSnapshotFrame(cfg, log, m, true);
  }

  // ---------------------------------------------------------------- the next file

  /** Once such a node has committed up to snapCount entries past its last file, the Ready that brings it
      there writes the next file: exactly those entries. */
  lemma NextFile(cfg: Config, log: seq<Entry>, n: Node, rd: Ready, w: World, lo: nat, hi: nat)
    requires Setting(cfg, log) && Decodable(log) && KeepsUp(cfg, log, n)
    requires rd.snapshot.None? && w.savedSnapshot && lo <= hi <= |log| && rd.committed == Stretch(log, lo, hi)
    requires Prompt(Running(n), rd, lo, hi) && hi == n.snapshotIndex + cfg.snapCount
    requires CommitEntries(cfg, n, rd.committed).Some?
    ensures var o := HandleReady(cfg, log, n, rd, w);
            && o.Running? && o.node.snapshotIndex == o.node.committedIndex == hi && o.node.firstIndex == hi + 1
            && o.node.disk == n.disk + [Snapshot(hi, Some(log[n.snapshotIndex..hi]))]
  {
    EntriesReach(cfg, n, log, lo, hi);
    WritesFile(cfg, log, SaveHardState(CommitEntries(cfg, n, rd.committed).value, rd.hard));
  }

  lemma WritesFile(cfg: Config, log: seq<Entry>, n: Node)
    requires cfg.snapCount > 0 && Multiple(n.snapshotIndex, cfg.snapCount)
    requires n.committedIndex == n.snapshotIndex + cfg.snapCount <= |log| && n.firstIndex == n.snapshotIndex + 1
    ensures var m, hi := MaybeSnapshot(cfg, log, n, true), n.committedIndex;
            && m == n.(disk := m.disk, snapshotIndex := hi, firstIndex := hi + 1)
            && m.disk == n.disk + [Snapshot(hi, Some(log[n.snapshotIndex..hi]))]
  {
    MultipleIffNoRemainder(n.committedIndex, cfg.snapCount);
    StretchIsSlice(log, n.snapshotIndex, n.committedIndex);
  }

  /** Entries up to snapCount past the last file of a node, without a snapshot and without trouble. */
  ghost predicate BringsNext(cfg: Config, log: seq<Entry>, n: Node, rd: Ready, w: World, lo: nat) {
    var to := n.snapshotIndex + cfg.snapCount;
    && rd.snapshot.None? && w.savedSnapshot && lo <= to <= |log|
    && rd.committed == Stretch(log, lo, to) && Prompt(Running(n), rd, lo, to)
    && CommitEntries(cfg, n, rd.committed).Some?
  }

  /** So a recovered node goes on: the first Ready recovers it, the second brings snapCount entries past
      its last file, and writes the file of these. */
  lemma RecoveredGoesOn(cfg: Config, p: Past, log: seq<Entry>, n: Node, applied: nat, files: seq<Snapshot>,
                        rd: Ready, w: World, lo: nat, hi: nat, rd1: Ready, w1: World, lo1: nat)
    requires Setting(cfg, log) && Decodable(log) && TermsGrow(log) && Story(cfg, p, log, |log|).Some?
    requires KeepsUp(cfg, log, n) && LedgerInv(cfg, p, log, n, applied)
    requires rd.snapshot.Some? && Fed(cfg, log, n, files, rd.snapshot.value, w) && w.savedSnapshot
    requires lo <= hi <= |log| && rd.committed == Stretch(log, lo, hi) && hi <= lo + cfg.snapCount
    requires Prompt(Receive(cfg, n, rd, w), rd, lo, hi)
    requires BringsNext(cfg, log, HandleReady(cfg, log, n, rd, w).node, rd1, w1, lo1)
    ensures var o := HandleReady(cfg, log, n, rd, w);
            && o.Running? && o.node.firstIndex == o.node.snapshotIndex + 1
            && rd.snapshot.value.index < o.node.snapshotIndex + cfg.snapCount
            && WritesNext(cfg, log, o.node, HandleReady(cfg, log, o.node, rd1, w1))
  {
    FedKeepsUp(cfg, p, log, n, applied, files, rd, w, lo, hi);
    NextIsWritten(cfg, log, HandleReady(cfg, log, n, rd, w).node, rd1, w1, lo1);
  }

  /** The next file of node n has been written, and the raft storage begins behind it. */
  ghost predicate WritesNext(cfg: Config, log: seq<Entry>, n: Node, o: Outcome) {
    var to := n.snapshotIndex + cfg.snapCount;
    && o.Running? && o.node.snapshotIndex == to <= |log| && o.node.firstIndex == to + 1
    && o.node.disk == n.disk + [Snapshot(to, Some(log[n.snapshotIndex..to]))]
  }

  lemma NextIsWritten(cfg: Config, log: seq<Entry>, n: Node, rd: Ready, w: World, lo: nat)
    requires Setting(cfg, log) && Decodable(log) && KeepsUp(cfg, log, n) && BringsNext(cfg, log, n, rd, w, lo)
    ensures WritesNext(cfg, log, n, HandleReady(cfg, log, n, rd, w))
  {
    NextFile(cfg, log, n, rd, w, lo, n.snapshotIndex + cfg.snapCount);
  }

  /** A node whose raft storage begins behind the end of its files writes no file any more, whatever it is
      handed, until the next snapshot. */
  lemma NoMoreFiles(cfg: Config, log: seq<Entry>, n: Node, rd: Ready, w: World)
    requires cfg.snapCount > 0 && n.snapshotIndex + 1 < n.firstIndex && rd.snapshot.None?
    ensures var m := HandleReady(cfg, log, n, rd, w).node;
            m.disk == n.disk && m.snapshotIndex == n.snapshotIndex && m.firstIndex == n.firstIndex
  {
    if CommitEntries(cfg, n, rd.committed).Some? {
      CommitFrame(cfg, n, rd.committed);
    } else {
      PanicFrame(cfg, n, rd.committed);
    }
  }

  /** A node that is only set back by a recovery, since what it has saved is not within snapCount entries
      past its own last file, ends up so: its raft storage is moved to the leader's snapshot all the same. */
  lemma SetBackWritesNoFiles(cfg: Config, p: Past, log: seq<Entry>, n: Node, applied: nat, files: seq<Snapshot>,
                             rd: Ready, w: World)
    requires Setting(cfg, log) && Decodable(log) && TermsGrow(log) && Story(cfg, p, log, |log|).Some?
    requires Tiling(cfg, log, n) && LedgerInv(cfg, p, log, n, applied)
    requires rd.snapshot.Some? && Fed(cfg, log, n, files, rd.snapshot.value, w)
    requires n.snapshotIndex <= n.committedIndex && n.storageCommit <= n.committedIndex < rd.snapshot.value.index
    requires !(n.snapshotIndex <= n.storageCommit < n.snapshotIndex + cfg.snapCount)
    ensures var o := HandleReady(cfg, log, n, rd, w);
            && o.node.disk == n.disk && o.node.snapshotIndex == n.snapshotIndex
            && (o.Running? ==> o.node.snapshotIndex + 1 < o.node.firstIndex)
  {
    var s := rd.snapshot.value;
    FilesArePieces(cfg.snapCount, log, files, s);
    RecoveryReachesTheTarget(cfg, p, log, n, applied, files, s);
    var o := Receive(cfg, n, rd, w);
    if o.Running? {
      NoMoreFiles(cfg, log, o.node, rd.(snapshot := None), w);
    }
  }

  /** And a crash after such a recovery, before the Ready's hard state has been saved, leaves files past
      the commit index in the write-ahead log: the restart is refused. */
  lemma CrashAfterRecovery(cfg: Config, p: Past, log: seq<Entry>, n: Node, applied: nat, files: seq<Snapshot>,
                           rd: Ready, w: World, c: Crash)
    requires Setting(cfg, log) && Decodable(log) && TermsGrow(log) && Story(cfg, p, log, |log|).Some?
    requires KeepsUp(cfg, log, n) && LedgerInv(cfg, p, log, n, applied)
    requires rd.snapshot.Some? && Fed(cfg, log, n, files, rd.snapshot.value, w)
    ensures var o := CrashInReady(cfg, n, rd, w, c);
            !o.Running? && (Restart(o.node).Running? <==> rd.snapshot.value.index <= n.committedIndex)
  {
    var s := rd.snapshot.value;
    ReceiveRecoups(cfg, p, log, n, applied, files, rd, w);
    CutFrame(cfg, Receive(cfg, n, rd, w).node, rd.committed, c);
    if s.index <= n.committedIndex {
      OldSnapshot(cfg, log, n, files, rd, w);
    } else {
      RecoverRecoups(cfg, p, log, n, applied, files, s, w);
    }
  }

  // ---------------------------------------------------------------- answers that are no snapshot

  /** A node that has taken over the pieces up to index mid. */
  ghost function UpTo(cfg: Config, n: Node, files: seq<Snapshot>, mid: nat): Node
    decreases mid - n.snapshotIndex
  {
    if n.snapshotIndex >= mid then n
    else match Answer(cfg, n, FileAt(files, n.snapshotIndex + cfg.snapCount))
      case Again(m) => if m.snapshotIndex > n.snapshotIndex then UpTo(cfg, m, files, mid) else m
      case Leave(_) => n
  }

  /** Each piece up to there is there and brings the node one further. */
  ghost predicate Served(cfg: Config, n: Node, files: seq<Snapshot>, mid: nat)
    requires cfg.snapCount > 0
    decreases mid - n.snapshotIndex
  {
    n.snapshotIndex == mid ||
    (n.snapshotIndex < mid
     && var t := Answer(cfg, n, FileAt(files, n.snapshotIndex + cfg.snapCount));
       t.Again? && t.node.snapshotIndex == n.snapshotIndex + cfg.snapCount && Served(cfg, t.node, files, mid))
  }

  lemma ArrivedAt(cfg: Config, p: Past, log: seq<Entry>, applied: nat, at: nat, n: Node)
    requires cfg.snapCount > 0 && Arrived(cfg, p, log, applied, at, Running(n))
    ensures n.snapshotIndex == at && Multiple(at, cfg.snapCount)
  {
  }

  lemma {:induction false} IsServed(cfg: Config, p: Past, log: seq<Entry>, n: Node, applied: nat,
                                    files: seq<Snapshot>, mid: nat)
    requires Setting(cfg, log) && Decodable(log) && Story(cfg, p, log, |log|).Some?
    requires Arrived(cfg, p, log, applied, n.snapshotIndex, Running(n)) && Even(cfg.snapCount, log, files)
    requires Multiple(mid, cfg.snapCount) && n.snapshotIndex <= mid <= LastSnapshot(files)
    ensures Served(cfg, n, files, mid)
    decreases mid - n.snapshotIndex
  {
    if n.snapshotIndex < mid {
      ArrivedAt(cfg, p, log, applied, n.snapshotIndex, n);
      MultiplesApart(n.snapshotIndex, mid, cfg.snapCount);
      TurnArrives(cfg, p, log, n, applied, files);
      var t := Answer(cfg, n, FileAt(files, n.snapshotIndex + cfg.snapCount));
      ArrivedAt(cfg, p, log, applied, n.snapshotIndex + cfg.snapCount, t.node);
      IsServed(cfg, p, log, t.node, applied, files, mid);
    }
  }

  lemma {:induction false} UpToArrives(cfg: Config, p: Past, log: seq<Entry>, n: Node, applied: nat,
                                       files: seq<Snapshot>, mid: nat)
    requires Setting(cfg, log) && Decodable(log) && Story(cfg, p, log, |log|).Some?
    requires Arrived(cfg, p, log, applied, n.snapshotIndex, Running(n)) && Even(cfg.snapCount, log, files)
    requires mid <= LastSnapshot(files) && Served(cfg, n, files, mid)
    ensures Arrived(cfg, p, log, applied, mid, Running(UpTo(cfg, n, files, mid)))
    decreases mid - n.snapshotIndex
  {
    if n.snapshotIndex < mid {
      var m := Answer(cfg, n, FileAt(files, n.snapshotIndex + cfg.snapCount)).node;
      ServedNext(cfg, n, files, mid, m);
      NextArrives(cfg, p, log, n, applied, files, m);
      UpToArrives(cfg, p, log, m, applied, files, mid);
      UpToNext(cfg, n, files, mid, m);
    }
  }

  lemma ServedNext(cfg: Config, n: Node, files: seq<Snapshot>, mid: nat, m: Node)
    requires cfg.snapCount > 0 && Served(cfg, n, files, mid) && n.snapshotIndex < mid
    requires Answer(cfg, n, FileAt(files, n.snapshotIndex + cfg.snapCount)).Again?
    requires m == Answer(cfg, n, FileAt(files, n.snapshotIndex + cfg.snapCount)).node
    ensures Answer(cfg, n, FileAt(files, n.snapshotIndex + cfg.snapCount)) == Again(m)
    ensures m.snapshotIndex == n.snapshotIndex + cfg.snapCount <= mid && Served(cfg, m, files, mid)
  {
    ServedWithin(cfg, m, files, mid);
  }

  lemma NextArrives(cfg: Config, p: Past, log: seq<Entry>, n: Node, applied: nat, files: seq<Snapshot>, m: Node)
    requires Setting(cfg, log) && Decodable(log) && Story(cfg, p, log, |log|).Some?
    requires Arrived(cfg, p, log, applied, n.snapshotIndex, Running(n)) && Even(cfg.snapCount, log, files)
    requires n.snapshotIndex + cfg.snapCount <= LastSnapshot(files)
    requires Answer(cfg, n, FileAt(files, n.snapshotIndex + cfg.snapCount)) == Again(m)
    requires m.snapshotIndex == n.snapshotIndex + cfg.snapCount
    ensures Arrived(cfg, p, log, applied, m.snapshotIndex, Running(m))
  {
    TurnArrives(cfg, p, log, n, applied, files);
  }

  lemma ServedWithin(cfg: Config, n: Node, files: seq<Snapshot>, mid: nat)
    requires cfg.snapCount > 0 && Served(cfg, n, files, mid)
    ensures n.snapshotIndex <= mid
  {
  }

  /** The chain up to mid, whatever is answered then. */
  ghost predicate ComesTo(cfg: Config, n: Node, files: seq<Snapshot>, mid: nat, target: nat, tail: seq<Reply>)
    requires cfg.snapCount > 0
  {
    var k := cfg.snapCount;
    Chase(cfg, n, target, Answers(k, files, n.snapshotIndex + k, mid + k) + tail)
    == Chase(cfg, UpTo(cfg, n, files, mid), target, tail)
  }

  lemma {:induction false} ChaseUpTo(cfg: Config, n: Node, files: seq<Snapshot>, mid: nat, target: nat,
                                     tail: seq<Reply>)
    requires cfg.snapCount > 0 && Served(cfg, n, files, mid) && mid + cfg.snapCount < target
    requires Multiple(n.snapshotIndex, cfg.snapCount)
    ensures ComesTo(cfg, n, files, mid, target, tail)
    ensures UpTo(cfg, n, files, mid).snapshotIndex == mid && Multiple(mid, cfg.snapCount)
    decreases mid - n.snapshotIndex
  {
    if n.snapshotIndex == mid {
      assert [] + tail == tail;
    } else {
      var m := Answer(cfg, n, FileAt(files, n.snapshotIndex + cfg.snapCount)).node;
      assert Multiple(m.snapshotIndex, cfg.snapCount);
      ServedWithin(cfg, m, files, mid);
      ChaseUpTo(cfg, m, files, mid, target, tail);
      UpToNext(cfg, n, files, mid, m);
      ChaseNext(cfg, n, m, files, mid, target, tail);
    }
  }

  lemma UpToNext(cfg: Config, n: Node, files: seq<Snapshot>, mid: nat, m: Node)
    requires n.snapshotIndex < mid && n.snapshotIndex < m.snapshotIndex
    requires Answer(cfg, n, FileAt(files, n.snapshotIndex + cfg.snapCount)) == Again(m)
    ensures UpTo(cfg, n, files, mid) == UpTo(cfg, m, files, mid)
  {
  }

  lemma ChaseNext(cfg: Config, n: Node, m: Node, files: seq<Snapshot>, mid: nat, target: nat, tail: seq<Reply>)
    requires cfg.snapCount > 0 && Multiple(n.snapshotIndex, cfg.snapCount)
    requires m.snapshotIndex == n.snapshotIndex + cfg.snapCount && m.snapshotIndex <= mid
    requires Answer(cfg, n, FileAt(files, n.snapshotIndex + cfg.snapCount)) == Again(m)
    requires mid + cfg.snapCount < target
    ensures var k := cfg.snapCount;
            Chase(cfg, n, target, Answers(k, files, n.snapshotIndex + k, mid + k) + tail)
            == Chase(cfg, m, target, Answers(k, files, m.snapshotIndex + k, mid + k) + tail)
  {
    var k := cfg.snapCount;
    AnswersFirst(k, files, m.snapshotIndex, mid + k, tail);
    ChaseOnce(cfg, n, target, FileAt(files, m.snapshotIndex),
              Answers(k, files, m.snapshotIndex + k, mid + k) + tail, m);
  }

  lemma ChaseOnce(cfg: Config, n: Node, target: nat, r: Reply, rest: seq<Reply>, m: Node)
    requires cfg.snapCount > 0 && Multiple(n.snapshotIndex, cfg.snapCount) && n.snapshotIndex + cfg.snapCount < target
    requires Answer(cfg, n, r) == Again(m)
    ensures Chase(cfg, n, target, [r] + rest) == Chase(cfg, m, target, rest)
  {
    assert ([r] + rest)[1..] == rest;
  }

  lemma AnswersFirst(k: nat, files: seq<Snapshot>, next: nat, target: nat, tail: seq<Reply>)
    requires k > 0 && next < target
    ensures Answers(k, files, next, target) + tail
         == [FileAt(files, next)] + (Answers(k, files, next + k, target) + tail)
  {
  }

  /** Where the chain is left by an answer that is no snapshot, or by none. */
  lemma NoPiece(cfg: Config, m: Node, s: Snapshot, r: Reply, rest: seq<Reply>)
    requires cfg.snapCount > 0 && Multiple(m.snapshotIndex, cfg.snapCount) && m.snapshotIndex + cfg.snapCount < s.index
    ensures var o := Chase(cfg, m, s.index, [r] + rest);
            && (r.Failure? ==> o == Down(m, None)) && (r.Garbled? ==> o == Running(m))
            && (r.Idle? ==> o == Chase(cfg, m, s.index, rest))
    ensures Chase(cfg, m, s.index, []) == Down(m, None)
  {
    assert ([r] + rest)[1..] == rest;
  }

  lemma LeftAt(cfg: Config, n: Node, m: Node, s: Snapshot, replies: seq<Reply>)
    requires cfg.snapCount > 0 && m.snapshotIndex + cfg.snapCount < s.index
    requires Chase(cfg, n, s.index, replies) in {Down(m, None), Running(m)}
    ensures ChaseAndFinish(cfg, n, s, replies, None) == Down(m, None)
  {
  }

  lemma SameChase(cfg: Config, n: Node, s: Snapshot, a: seq<Reply>, b: seq<Reply>)
    requires cfg.snapCount > 0 && Chase(cfg, n, s.index, a) == Chase(cfg, n, s.index, b)
    ensures ChaseAndFinish(cfg, n, s, a, None) == ChaseAndFinish(cfg, n, s, b, None)
  {
  }

  /** Where the chain ends if the answers behind the pieces end it. */
  lemma ChainEnds(cfg: Config, n: Node, files: seq<Snapshot>, s: Snapshot, mid: nat, tail: seq<Reply>)
    requires cfg.snapCount > 0 && Served(cfg, n, files, mid) && mid + cfg.snapCount < s.index
    requires Multiple(n.snapshotIndex, cfg.snapCount)
    requires tail == [] || tail[0].Failure? || tail[0].Garbled?
    ensures var k := cfg.snapCount;
            ChaseAndFinish(cfg, n, s, Answers(k, files, n.snapshotIndex + k, mid + k) + tail, None)
            == Down(UpTo(cfg, n, files, mid), None)
  {
    var k, m := cfg.snapCount, UpTo(cfg, n, files, mid);
    ChaseUpTo(cfg, n, files, mid, s.index, tail);
    if tail == [] {
      NoPiece(cfg, m, s, Idle, []);
    } else {
      assert tail == [tail[0]] + tail[1..];
      NoPiece(cfg, m, s, tail[0], tail[1..]);
    }
    LeftAt(cfg, n, m, s, Answers(k, files, n.snapshotIndex + k, mid + k) + tail);
  }

  lemma ChainIdles(cfg: Config, n: Node, files: seq<Snapshot>, s: Snapshot, mid: nat, rest: seq<Reply>)
    requires cfg.snapCount > 0 && Served(cfg, n, files, mid) && mid + cfg.snapCount < s.index
    requires Multiple(n.snapshotIndex, cfg.snapCount)
    ensures var k := cfg.snapCount;
            var pieces := Answers(k, files, n.snapshotIndex + k, mid + k);
            ChaseAndFinish(cfg, n, s, pieces + ([Idle] + rest), None) == ChaseAndFinish(cfg, n, s, pieces + rest, None)
  {
    var k := cfg.snapCount;
    var pieces := Answers(k, files, n.snapshotIndex + k, mid + k);
    ChaseUpTo(cfg, n, files, mid, s.index, [Idle] + rest);
    ChaseUpTo(cfg, n, files, mid, s.index, rest);
    NoPiece(cfg, UpTo(cfg, n, files, mid), s, Idle, rest);
    SameChase(cfg, n, s, pieces + ([Idle] + rest), pieces + rest);
  }

  /** A recovery that has to fetch pieces is the chain from the saved commit index on. */
  lemma RecoverIsChain(cfg: Config, log: seq<Entry>, n: Node, files: seq<Snapshot>, s: Snapshot, replies: seq<Reply>)
    requires cfg.snapCount > 0 && WellIndexed(log) && Even(cfg.snapCount, log, files) && s in files
    requires n.snapshotIndex <= n.storageCommit <= n.committedIndex < s.index
    requires n.storageCommit < n.snapshotIndex + cfg.snapCount < s.index && Multiple(n.snapshotIndex, cfg.snapCount)
    ensures Recover(cfg, n, s, replies, None)
         == ChaseAndFinish(cfg, n.(committedIndex := n.storageCommit), s, replies, None)
  {
    var k := cfg.snapCount;
    FilesArePieces(k, log, files, s);
    assert Multiple(n.snapshotIndex + k, k);
    MultiplesApart(n.snapshotIndex + k, s.index, k);
    RecoverGoes(cfg, log, n, s, replies, s.index - k);
  }

  /** A node that fetches the pieces up to mid of a leader that keeps up. */
  ghost predicate Fetches(cfg: Config, p: Past, log: seq<Entry>, n: Node, applied: nat, files: seq<Snapshot>,
                          s: Snapshot, mid: nat)
  {
    && Setting(cfg, log) && Decodable(log) && Story(cfg, p, log, |log|).Some?
    && Tiling(cfg, log, n) && LedgerInv(cfg, p, log, n, applied)
    && Even(cfg.snapCount, log, files) && s in files
    && n.snapshotIndex <= n.storageCommit <= n.committedIndex < s.index
    && n.storageCommit < n.snapshotIndex + cfg.snapCount
    && Multiple(mid, cfg.snapCount) && n.snapshotIndex <= mid && mid + cfg.snapCount < s.index
  }

  lemma FetchesIsServed(cfg: Config, p: Past, log: seq<Entry>, n: Node, applied: nat, files: seq<Snapshot>,
                        s: Snapshot, mid: nat)
    requires Fetches(cfg, p, log, n, applied, files, s, mid)
    ensures Served(cfg, n.(committedIndex := n.storageCommit), files, mid)
  {
    FilesArePieces(cfg.snapCount, log, files, s);
    WithinReach(cfg, p, log, n, applied);
    IsServed(cfg, p, log, n.(committedIndex := n.storageCommit), applied, files, mid);
  }

  lemma FetchesIsChain(cfg: Config, p: Past, log: seq<Entry>, n: Node, applied: nat, files: seq<Snapshot>,
                       s: Snapshot, mid: nat, replies: seq<Reply>)
    requires Fetches(cfg, p, log, n, applied, files, s, mid)
    ensures Recover(cfg, n, s, replies, None)
         == ChaseAndFinish(cfg, n.(committedIndex := n.storageCommit), s, replies, None)
  {
    RecoverIsChain(cfg, log, n, files, s, replies);
  }

  /** What a recovery comes to when something else than the piece asked for is answered, after the pieces
      up to index mid: a failed call, or data that do not decode, make it panic with the pieces so far
      taken over; so does a crash while it waits for the next answer. */
  lemma RecoveryBreaksOff(cfg: Config, p: Past, log: seq<Entry>, n: Node, applied: nat, files: seq<Snapshot>,
                          s: Snapshot, mid: nat, tail: seq<Reply>)
    requires Fetches(cfg, p, log, n, applied, files, s, mid)
    requires tail == [] || tail[0].Failure? || tail[0].Garbled?
    ensures var k := cfg.snapCount;
            Recover(cfg, n, s, Answers(k, files, n.snapshotIndex + k, mid + k) + tail, None)
            == Down(UpTo(cfg, n.(committedIndex := n.storageCommit), files, mid), None)
  {
    var k := cfg.snapCount;
    FetchesEnds(cfg, p, log, n, applied, files, s, mid, tail);
    FetchesIsChain(cfg, p, log, n, applied, files, s, mid, Answers(k, files, n.snapshotIndex + k, mid + k) + tail);
  }

  lemma FetchesEnds(cfg: Config, p: Past, log: seq<Entry>, n: Node, applied: nat, files: seq<Snapshot>,
                    s: Snapshot, mid: nat, tail: seq<Reply>)
    requires Fetches(cfg, p, log, n, applied, files, s, mid)
    requires tail == [] || tail[0].Failure? || tail[0].Garbled?
    ensures var k, n0 := cfg.snapCount, n.(committedIndex := n.storageCommit);
            ChaseAndFinish(cfg, n0, s, Answers(k, files, n.snapshotIndex + k, mid + k) + tail, None)
            == Down(UpTo(cfg, n0, files, mid), None)
  {
    FetchesIsServed(cfg, p, log, n, applied, files, s, mid);
    ChainEnds(cfg, n.(committedIndex := n.storageCommit), files, s, mid, tail);
  }

  /** Taken over, that is: the node stands at mid, with the ledger and the files of the log up to there. */
  lemma BreaksOffAt(cfg: Config, p: Past, log: seq<Entry>, n: Node, applied: nat, files: seq<Snapshot>,
                    s: Snapshot, mid: nat)
    requires Fetches(cfg, p, log, n, applied, files, s, mid)
    ensures Arrived(cfg, p, log, applied, mid, Running(UpTo(cfg, n.(committedIndex := n.storageCommit), files, mid)))
  {
    FetchesIsServed(cfg, p, log, n, applied, files, s, mid);
    FilesArePieces(cfg.snapCount, log, files, s);
    WithinReach(cfg, p, log, n, applied);
    UpToArrives(cfg, p, log, n.(committedIndex := n.storageCommit), applied, files, mid);
  }

  /** And an answer without data is as if it had not been given. */
  lemma IdleIsNothing(cfg: Config, p: Past, log: seq<Entry>, n: Node, applied: nat, files: seq<Snapshot>,
                      s: Snapshot, mid: nat, rest: seq<Reply>)
    requires Fetches(cfg, p, log, n, applied, files, s, mid)
    ensures var k := cfg.snapCount;
            var pieces := Answers(k, files, n.snapshotIndex + k, mid + k);
            Recover(cfg, n, s, pieces + ([Idle] + rest), None) == Recover(cfg, n, s, pieces + rest, None)
  {
    var k := cfg.snapCount;
    var pieces := Answers(k, files, n.snapshotIndex + k, mid + k);
    FetchesIsServed(cfg, p, log, n, applied, files, s, mid);
    ChainIdles(cfg, n.(committedIndex := n.storageCommit), files, s, mid, rest);
    FetchesIsChain(cfg, p, log, n, applied, files, s, mid, pieces + ([Idle] + rest));
    FetchesIsChain(cfg, p, log, n, applied, files, s, mid, pieces + rest);
  }

  // ---------------------------------------------------------------- whole runs

  /** A step of a leader, or of a node such a leader helps: batches of at most snapCount entries, no
      trouble saving, and with a snapshot the leader's answers, over a log that can be replayed. */
  ghost predicate Plain(cfg: Config, l0: State, log: seq<Entry>, st: Stage, step: Step)
    requires cfg.snapCount > 0
  {
    match step
    case Handle(rd, w, lo, hi) =>
      && w.savedSnapshot && lo <= hi <= lo + cfg.snapCount
      && (rd.snapshot.Some? ==>
            Story(cfg, Past(l0, st.marks), log, |log|).Some?
            && exists files :: Fed(cfg, log, st.outcome.node, files, rd.snapshot.value, w))
    case Interrupt(rd, w, lo, hi, c) => rd.snapshot.None?
    case _ => true
  }

  ghost predicate IsPlainRun(cfg: Config, l0: State, log: seq<Entry>, st: Stage, steps: seq<Step>)
    requires cfg.snapCount > 0
    ensures IsPlainRun(cfg, l0, log, st, steps) ==> IsOrderlyRun(cfg, log, st, steps)
    decreases |steps|
  {
    steps == [] ||
    (Orderly(cfg, log, st, steps[0]) && Plain(cfg, l0, log, st, steps[0])
     && IsPlainRun(cfg, l0, log, After(cfg, log, st, steps[0]), steps[1..]))
  }

  ghost predicate Abreast(cfg: Config, log: seq<Entry>, st: Stage)
    requires cfg.snapCount > 0
  {
    match st.outcome
    case Running(n) => KeepsUp(cfg, log, n)
    case o => FilesAbreast(cfg, log, o.node)
  }

  /** The same of a node that is down. */
  ghost predicate FilesAbreast(cfg: Config, log: seq<Entry>, n: Node)
    requires cfg.snapCount > 0
  {
    && Tiled(cfg, log, n.disk) && n.walCommit <= |log| && Even(cfg.snapCount, log, n.disk)
    && LastSnapshot(n.disk) <= n.walCommit < LastSnapshot(n.disk) + cfg.snapCount
  }

  lemma HandleAbreast(cfg: Config, log: seq<Entry>, n: Node, rd: Ready, w: World, lo: nat, hi: nat)
    requires Setting(cfg, log) && Decodable(log) && KeepsUp(cfg, log, n)
    requires lo <= hi <= |log| && rd.committed == Stretch(log, lo, hi)
    requires rd.snapshot.None? && w.savedSnapshot && hi <= lo + cfg.snapCount
    requires Prompt(Running(n), rd, lo, hi)
    ensures var o := HandleReady(cfg, log, n, rd, w);
            if o.Running? then KeepsUp(cfg, log, o.node) else o.Halted? && FilesAbreast(cfg, log, o.node)
  {
    if CommitEntries(cfg, n, rd.committed).Some? {
      EntriesReach(cfg, n, log, lo, hi);
      TriggerEven(cfg, log, SaveHardState(CommitEntries(cfg, n, rd.committed).value, rd.hard));
    } else {
      PanicFrame(cfg, n, rd.committed);
    }
  }

  lemma FedAbreast(cfg: Config, l0: State, log: seq<Entry>, st: Stage, step: Step)
    requires Setting(cfg, log) && Decodable(log) && TermsGrow(log) && Safe(cfg, l0, log, st)
    requires step.Handle? && step.rd.snapshot.Some? && Orderly(cfg, log, st, step) && Plain(cfg, l0, log, st, step)
    requires Abreast(cfg, log, st)
    ensures Abreast(cfg, log, After(cfg, log, st, step))
  {
    var n, rd, w := st.outcome.node, step.rd, step.w;
    var files :| Fed(cfg, log, n, files, rd.snapshot.value, w);
    FedKeepsUp(cfg, Past(l0, st.marks), log, n, st.applied, files, rd, w, step.lo, step.hi);
  }

  lemma StepAbreast(cfg: Config, l0: State, log: seq<Entry>, st: Stage, step: Step)
    requires Setting(cfg, log) && Decodable(log) && TermsGrow(log) && Safe(cfg, l0, log, st)
    requires Abreast(cfg, log, st) && Orderly(cfg, log, st, step) && Plain(cfg, l0, log, st, step)
    ensures Abreast(cfg, log, After(cfg, log, st, step))
  {
    match step
    case Handle(rd, w, lo, hi) =>
      if rd.snapshot.Some? {
        FedAbreast(cfg, l0, log, st, step);
      } else {
        HandleAbreast(cfg, log, st.outcome.node, rd, w, lo, hi);
      }
    case Interrupt(rd, w, lo, hi, c) => CutFrame(cfg, st.outcome.node, rd.committed, c);
    case PowerOff =>
    case Boot => RestartTiles(cfg, log, st.outcome.node);
    case Change(_) =>
  }

  lemma {:induction false} RunsStayAbreast(cfg: Config, l0: State, log: seq<Entry>, st: Stage, steps: seq<Step>)
    requires Setting(cfg, log) && Decodable(log) && TermsGrow(log) && Safe(cfg, l0, log, st)
    requires Abreast(cfg, log, st) && IsPlainRun(cfg, l0, log, st, steps)
    ensures Abreast(cfg, log, RunFrom(cfg, log, st, steps))
    decreases |steps|
  {
    if steps != [] {
      StepAbreast(cfg, l0, log, st, steps[0]);
      StepKeeps(cfg, l0, log, st, steps[0]);
      RunsStayAbreast(cfg, l0, log, After(cfg, log, st, steps[0]), steps[1..]);
    }
  }

  /** Over a whole run of small batches, with recoveries, crashes, panics and restarts, a node has one
      snapshot for every full snapCount entries it has committed; number i is entries i * snapCount ..
      (i + 1) * snapCount of the log; and a restart is never refused. */
  lemma SnapshotsAreEven(cfg: Config, l0: State, log: seq<Entry>, steps: seq<Step>, i: nat)
    requires Setting(cfg, log) && Decodable(log) && TermsGrow(log) && IsPlainRun(cfg, l0, log, Fresh(l0), steps)
    ensures var o := RunFrom(cfg, log, Fresh(l0), steps).outcome; var k := cfg.snapCount;
            && (!o.Running? ==> Restart(o.node).Running?)
            && (o.Running? ==> k * |o.node.disk| <= o.node.committedIndex < k * |o.node.disk| + k)
            && (i < |o.node.disk| ==>
                  0 <= k * i <= k * i + k <= |log|
                  && o.node.disk[i] == Snapshot(k * i + k, Some(log[k * i..k * i + k])))
  {
    FreshIsSafe(cfg, l0, log);
    FreshIsAbreast(cfg, l0, log);
    RunsStayAbreast(cfg, l0, log, Fresh(l0), steps);
    AbreastMeans(cfg, log, RunFrom(cfg, log, Fresh(l0), steps), i);
  }

  lemma AbreastMeans(cfg: Config, log: seq<Entry>, st: Stage, i: nat)
    requires cfg.snapCount > 0 && Abreast(cfg, log, st)
    ensures var o := st.outcome; var k := cfg.snapCount;
            && (!o.Running? ==> Restart(o.node).Running?)
            && (o.Running? ==> k * |o.node.disk| <= o.node.committedIndex < k * |o.node.disk| + k)
            && (i < |o.node.disk| ==>
                  0 <= k * i <= k * i + k <= |log|
                  && o.node.disk[i] == Snapshot(k * i + k, Some(log[k * i..k * i + k])))
  {
    AbreastFiles(cfg, log, st);
    EvenEnds(cfg.snapCount, log, st.outcome.node.disk);
    if i < |st.outcome.node.disk| {
      EvenPiece(cfg.snapCount, log, st.outcome.node.disk, i);
    }
  }

  lemma FreshIsAbreast(cfg: Config, l0: State, log: seq<Entry>)
    requires cfg.snapCount > 0
    ensures Abreast(cfg, log, Fresh(l0))
  {
  }

  lemma AbreastFiles(cfg: Config, log: seq<Entry>, st: Stage)
    requires cfg.snapCount > 0 && Abreast(cfg, log, st)
    ensures Even(cfg.snapCount, log, st.outcome.node.disk)
    ensures !st.outcome.Running? ==> Restart(st.outcome.node).Running?
    ensures st.outcome.Running? ==>
              var n := st.outcome.node;
              LastSnapshot(n.disk) <= n.committedIndex < LastSnapshot(n.disk) + cfg.snapCount
  {
  }

  lemma EvenPiece(k: nat, log: seq<Entry>, disk: seq<Snapshot>, i: nat)
    requires Even(k, log, disk) && i < |disk|
    ensures 0 <= k * i <= k * i + k <= |log| && disk[i] == Snapshot(k * i + k, Some(log[k * i..k * i + k]))
  {
    EvenAt(k, log, disk, i);
    StretchIsSlice(log, k * i, k * i + k);
  }
}
