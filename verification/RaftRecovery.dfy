/** Nodes that keep up take snapshots exactly snapCount apart, and a node that has fallen behind such
    a leader reaches it in one recovery. */
module RaftRecovery {
  import opened Options
  import opened Ledger
  import opened Multiples
  import opened RaftSpec
  import opened RaftSafety
  import opened RaftSnapshots

  // ---------------------------------------------------------------- snapshots exactly snapCount apart

  /** Snapshot number i covers the i-th stretch of k entries. */
  ghost predicate Even(k: nat, log: seq<Entry>, disk: seq<Snapshot>) {
    disk == [] ||
    (var init, s := disk[..|disk| - 1], disk[|disk| - 1];
     var from := LastSnapshot(init);
     Even(k, log, init) && s.index == from + k <= |log| && s.entries == Some(Stretch(log, from, s.index)))
  }

  lemma {:induction false} EvenEnds(k: nat, log: seq<Entry>, disk: seq<Snapshot>)
    requires Even(k, log, disk)
    ensures LastSnapshot(disk) == k * |disk| <= |log|
    decreases |disk|
  {
    if disk != [] {
      EvenEnds(k, log, disk[..|disk| - 1]);
      assert k * |disk| == k * (|disk| - 1) + k;
    }
  }

  lemma {:induction false} EvenAt(k: nat, log: seq<Entry>, disk: seq<Snapshot>, i: nat)
    requires Even(k, log, disk) && i < |disk|
    ensures 0 <= k * i <= k * i + k == disk[i].index <= |log|
    ensures disk[i].entries == Some(Stretch(log, k * i, k * i + k))
    decreases |disk|
  {
    var init := disk[..|disk| - 1];
    if i < |init| {
      EvenAt(k, log, init, i);
      assert init[i] == disk[i];
    } else {
      EvenEnds(k, log, init);
    }
  }

  lemma EvenWith(k: nat, log: seq<Entry>, disk: seq<Snapshot>, s: Snapshot)
    requires Even(k, log, disk) && s.index == LastSnapshot(disk) + k <= |log|
    requires s.entries == Some(Stretch(log, LastSnapshot(disk), s.index))
    ensures Even(k, log, disk + [s])
  {
    assert (disk + [s])[..|disk|] == disk;
  }

  /** A node that keeps up: less than snapCount entries past its last snapshot, which is where the
      entries in its raft storage begin. */
  ghost predicate KeepsUp(cfg: Config, log: seq<Entry>, n: Node)
    requires cfg.snapCount > 0
  {
    && Steady(cfg, log, n) && Even(cfg.snapCount, log, n.disk)
    && n.committedIndex < n.snapshotIndex + cfg.snapCount
    && n.firstIndex == n.snapshotIndex + 1
  }

  lemma {:induction false} TheOnlyMultiple(a: nat, b: nat, k: nat)
    requires k > 0 && Multiple(a, k) && Multiple(b, k) && a < b < a + k + k
    ensures b == a + k
  {
    if a > 0 {
      TheOnlyMultiple(a - k, b - k, k);
    }
  }

  lemma TriggerEven(cfg: Config, log: seq<Entry>, n: Node)
    requires cfg.snapCount > 0 && Steady(cfg, log, n) && Even(cfg.snapCount, log, n.disk)
    requires n.committedIndex < n.snapshotIndex + cfg.snapCount + cfg.snapCount
    requires n.firstIndex == n.snapshotIndex + 1
    ensures KeepsUp(cfg, log, MaybeSnapshot(cfg, log, n, true))
  {
    var k, c := cfg.snapCount, n.committedIndex;
    TriggerTiles(cfg, log, n, true);
    MaybeSnapshotFrame(cfg, log, n, true);
    if c >= n.snapshotIndex + k {
      RoundedDown(c, k);
      TheOnlyMultiple(n.snapshotIndex, c - c % k, k);
      EvenWith(k, log, n.disk, Snapshot(n.snapshotIndex + k, Some(Stretch(log, n.snapshotIndex, n.snapshotIndex + k))));
    }
  }

  // ---------------------------------------------------------------- catching up

  /** The snapshot that ends at an index. */
  function FileAt(files: seq<Snapshot>, index: nat): Reply {
    if files == [] then Failure
    else if files[|files| - 1].index == index then Reply(files[|files| - 1], true)
    else FileAt(files[..|files| - 1], index)
  }

  /** The snapshots that end at `next`, `next + k`, … below the target. */
  function Answers(k: nat, files: seq<Snapshot>, next: nat, target: nat): seq<Reply>
    requires k > 0
    decreases target - next
  {
    if next >= target then [] else [FileAt(files, next)] + Answers(k, files, next + k, target)
  }

  lemma {:induction false} PieceFound(cfg: Config, log: seq<Entry>, files: seq<Snapshot>, at: nat)
    requires cfg.snapCount > 0 && Even(cfg.snapCount, log, files)
    requires Multiple(at, cfg.snapCount) && at + cfg.snapCount <= LastSnapshot(files)
    ensures var k := cfg.snapCount;
            && at + k <= |log|
            && FileAt(files, at + k) == Reply(Snapshot(at + k, Some(Stretch(log, at, at + k))), true)
    decreases |files|
  {
    var init := files[..|files| - 1];
    LastIsMultiple(cfg.snapCount, log, init);
    if LastSnapshot(init) < at + cfg.snapCount {
      if at < LastSnapshot(init) {
        MultiplesApart(at, LastSnapshot(init), cfg.snapCount);
      }
    } else {
      PieceFound(cfg, log, init, at);
    }
  }

  // ---------------------------------------------------------------- files named by term and index

  /** The term in the name of a snapshot's file: that of its last entry. */
  function SnapTerm(s: Snapshot): nat {
    if s.entries.Some? && s.entries.value != [] then s.entries.value[|s.entries.value| - 1].term else 0
  }

  function FileNamed(files: seq<Snapshot>, term: nat, index: nat): Option<Snapshot> {
    if files == [] then None
    else
      var s := files[|files| - 1];
      if s.index == index && SnapTerm(s) == term then Some(s) else FileNamed(files[..|files| - 1], term, index)
  }

  /** HandleSnap: looks for a file under one term after the other, and fails if there is none. */
  function HandleSnap(files: seq<Snapshot>, term: nat, maxTerm: nat, index: nat): Reply
    decreases maxTerm + 1 - term
  {
    if term > maxTerm then Failure
    else match FileNamed(files, term, index)
      case Some(s) => Reply(s, true)
      case None => HandleSnap(files, term + 1, maxTerm, index)
  }

  /** The term a node starts to ask from: that of its own last snapshot. */
  function OwnTerm(n: Node): nat {
    if n.disk == [] then 1 else SnapTerm(n.disk[|n.disk| - 1])
  }

  /** The leader's answers to requests for `next`, `next + k`, … below the target, each from the term
      of the snapshot before it up to the term of the target. */
  function Asked(k: nat, files: seq<Snapshot>, next: nat, target: nat, term: nat, maxTerm: nat): seq<Reply>
    requires k > 0
    decreases target - next
  {
    if next >= target then []
    else
      var r := HandleSnap(files, term, maxTerm, next);
      [r] + Asked(k, files, next + k, target, if r.Reply? then SnapTerm(r.snap) else term, maxTerm)
  }

  /** Terms begin at 1 and never fall along the log. */
  ghost predicate TermsGrow(log: seq<Entry>) {
    forall i, j :: 0 <= i <= j < |log| ==> 1 <= log[i].term <= log[j].term
  }

  lemma PieceTerm(log: seq<Entry>, at: nat, k: nat)
    requires k > 0 && at + k <= |log|
    ensures SnapTerm(Snapshot(at + k, Some(Stretch(log, at, at + k)))) == log[at + k - 1].term
  {
    StretchAt(log, at, at + k, k - 1);
  }

  lemma {:induction false} NameFound(cfg: Config, log: seq<Entry>, files: seq<Snapshot>, term: nat, at: nat)
    requires cfg.snapCount > 0 && Even(cfg.snapCount, log, files)
    requires Multiple(at, cfg.snapCount) && at + cfg.snapCount <= LastSnapshot(files)
    ensures var k := cfg.snapCount;
            && at + k <= |log|
            && FileNamed(files, term, at + k) ==
               if term == log[at + k - 1].term then Some(Snapshot(at + k, Some(Stretch(log, at, at + k)))) else None
    decreases |files|
  {
    var k, init := cfg.snapCount, files[..|files| - 1];
    LastIsMultiple(k, log, init);
    if LastSnapshot(init) < at + k {
      if at < LastSnapshot(init) {
        MultiplesApart(at, LastSnapshot(init), k);
      }
      PieceTerm(log, at, k);
      NoneNamed(k, log, init, term, at + k);
    } else {
      NameFound(cfg, log, init, term, at);
    }
  }

  lemma {:induction false} NoneNamed(k: nat, log: seq<Entry>, files: seq<Snapshot>, term: nat, index: nat)
    requires Even(k, log, files) && LastSnapshot(files) < index
    ensures FileNamed(files, term, index) == None
    decreases |files|
  {
    if files != [] {
      NoneNamed(k, log, files[..|files| - 1], term, index);
    }
  }

  /** A leader that keeps up has the stretch asked for, and finds it if and only if its term is among
      those it looks under. */
  lemma {:induction false} HandleSnapFinds(cfg: Config, log: seq<Entry>, files: seq<Snapshot>, at: nat,
                                           term: nat, maxTerm: nat)
    requires cfg.snapCount > 0 && Even(cfg.snapCount, log, files)
    requires Multiple(at, cfg.snapCount) && at + cfg.snapCount <= LastSnapshot(files)
    ensures var k := cfg.snapCount;
            && at + k <= |log|
            && HandleSnap(files, term, maxTerm, at + k) ==
               if term <= log[at + k - 1].term <= maxTerm
               then Reply(Snapshot(at + k, Some(Stretch(log, at, at + k))), true) else Failure
    decreases maxTerm + 1 - term
  {
    NameFound(cfg, log, files, term, at);
    if term <= maxTerm {
      HandleSnapFinds(cfg, log, files, at, term + 1, maxTerm);
    }
  }

  /** So as terms never fall, asking from the last term on up to that of the target finds every piece. */
  lemma {:induction false} AskedFinds(cfg: Config, log: seq<Entry>, files: seq<Snapshot>, at: nat, target: nat,
                                      term: nat, maxTerm: nat)
    requires cfg.snapCount > 0 && Even(cfg.snapCount, log, files) && TermsGrow(log)
    requires Multiple(at, cfg.snapCount) && Multiple(target, cfg.snapCount) && 0 < target <= LastSnapshot(files)
    requires target <= |log| && maxTerm == log[target - 1].term
    requires at + cfg.snapCount <= |log| ==> term <= log[at + cfg.snapCount - 1].term
    ensures Asked(cfg.snapCount, files, at + cfg.snapCount, target, term, maxTerm)
         == Answers(cfg.snapCount, files, at + cfg.snapCount, target)
    decreases target - at
  {
    var k := cfg.snapCount;
    if at + k < target {
      PieceAsked(cfg, log, files, at, term, maxTerm);
      AskedOn(k, files, at + k, target, term, maxTerm);
      AskedFinds(cfg, log, files, at + k, target, log[at + k - 1].term, maxTerm);
    }
  }

  /** One request. */
  lemma PieceAsked(cfg: Config, log: seq<Entry>, files: seq<Snapshot>, at: nat, term: nat, maxTerm: nat)
    requires cfg.snapCount > 0 && Even(cfg.snapCount, log, files)
    requires Multiple(at, cfg.snapCount) && at + cfg.snapCount <= LastSnapshot(files)
    requires at + cfg.snapCount <= |log| ==> term <= log[at + cfg.snapCount - 1].term <= maxTerm
    ensures var k := cfg.snapCount;
            var r := HandleSnap(files, term, maxTerm, at + k);
            at + k <= |log| && r == FileAt(files, at + k) && r.Reply? && SnapTerm(r.snap) == log[at + k - 1].term
  {
    HandleSnapFinds(cfg, log, files, at, term, maxTerm);
    PieceFound(cfg, log, files, at);
    PieceTerm(log, at, cfg.snapCount);
  }

  lemma AskedOn(k: nat, files: seq<Snapshot>, next: nat, target: nat, term: nat, maxTerm: nat)
    requires k > 0 && next < target && HandleSnap(files, term, maxTerm, next).Reply?
    ensures var r := HandleSnap(files, term, maxTerm, next);
            Asked(k, files, next, target, term, maxTerm)
            == [r] + Asked(k, files, next + k, target, SnapTerm(r.snap), maxTerm)
  {
  }

  lemma {:induction false} LastIsMultiple(k: nat, log: seq<Entry>, disk: seq<Snapshot>)
    requires k > 0 && Even(k, log, disk)
    ensures Multiple(LastSnapshot(disk), k)
    decreases |disk|
  {
    if disk != [] {
      LastIsMultiple(k, log, disk[..|disk| - 1]);
    }
  }

  /** What Even and the requests agree on: the stretch that ends at index `to`. */
  ghost predicate Piece(k: nat, log: seq<Entry>, s: Snapshot, from: nat) {
    from + k <= |log| && s == Snapshot(from + k, Some(Stretch(log, from, from + k)))
  }

  lemma PieceIsGenuine(cfg: Config, log: seq<Entry>, s: Snapshot, from: nat)
    requires cfg.snapCount > 0 && Piece(cfg.snapCount, log, s, from) && Multiple(from, cfg.snapCount)
    ensures Genuine(cfg, log, s) && Start(s) == from && s.index == from + cfg.snapCount
  {
  }

  /** A node within reach takes over the next piece. */
  lemma TakePiece(cfg: Config, p: Past, log: seq<Entry>, n: Node, applied: nat, s: Snapshot)
    requires Setting(cfg, log) && Decodable(log) && Story(cfg, p, log, |log|).Some?
    requires Indices(cfg, log, n) && LedgerInv(cfg, p, log, n, applied)
    requires n.committedIndex < n.snapshotIndex + cfg.snapCount && Piece(cfg.snapCount, log, s, n.snapshotIndex)
    ensures var r := Missing(n.committedIndex, s);
            && r.Some? && CommitEntries(cfg, n, r.value).Some?
            && var m := TakeOver(cfg, n, s, r.value).value;
              && Indices(cfg, log, m) && LedgerInv(cfg, p, log, m, Max(applied, s.index))
              && m.disk == n.disk + [s] && m.snapshotIndex == m.committedIndex == s.index
  {
    PieceIsGenuine(cfg, log, s, n.snapshotIndex);
    MissingIs(cfg, log, s, n.committedIndex);
    CommitSlice(cfg, p, log, n, applied, n.committedIndex, s.index);
    if Story(cfg, p, log, s.index) == None {
      StoryPrefix(cfg, p, log, s.index, |log|);
      assert false;
    }
    TakeOverTiles(cfg, log, n, s, Missing(n.committedIndex, s).value);
    TakeOverKeeps(cfg, p, log, n, applied, s);
  }

  /** What has been reached: exactly the index wanted, with the ledger of the log. */
  ghost predicate Arrived(cfg: Config, p: Past, log: seq<Entry>, applied: nat, target: nat, o: Outcome)
    requires cfg.snapCount > 0
  {
    && o.Running? && Indices(cfg, log, o.node) && o.node.snapshotIndex == target
    && target <= o.node.committedIndex < target + cfg.snapCount
    && LedgerInv(cfg, p, log, o.node, Max(applied, o.node.committedIndex))
  }

  lemma TurnArrives(cfg: Config, p: Past, log: seq<Entry>, n: Node, applied: nat, files: seq<Snapshot>)
    requires Setting(cfg, log) && Decodable(log) && Story(cfg, p, log, |log|).Some?
    requires Arrived(cfg, p, log, applied, n.snapshotIndex, Running(n))
    requires Even(cfg.snapCount, log, files) && n.snapshotIndex + cfg.snapCount <= LastSnapshot(files)
    ensures var to := n.snapshotIndex + cfg.snapCount;
            var t := Answer(cfg, n, FileAt(files, to));
            t.Again? && Arrived(cfg, p, log, applied, to, Running(t.node))
  {
    PieceFound(cfg, log, files, n.snapshotIndex);
    TakePiece(cfg, p, log, n, Max(applied, n.committedIndex), FileAt(files, n.snapshotIndex + cfg.snapCount).snap);
  }

  lemma {:induction false} ChaseArrives(cfg: Config, p: Past, log: seq<Entry>, n: Node, applied: nat,
                                        files: seq<Snapshot>, target: nat)
    requires Setting(cfg, log) && Decodable(log) && Story(cfg, p, log, |log|).Some?
    requires Arrived(cfg, p, log, applied, n.snapshotIndex, Running(n))
    requires Even(cfg.snapCount, log, files) && Multiple(target, cfg.snapCount) && target <= LastSnapshot(files)
    requires n.snapshotIndex < target
    ensures var k := cfg.snapCount;
            target >= k
            && Arrived(cfg, p, log, applied, target - k,
                       Chase(cfg, n, target, Answers(k, files, n.snapshotIndex + k, target)))
    decreases target - n.snapshotIndex
  {
    var k := cfg.snapCount;
    MultiplesApart(n.snapshotIndex, target, k);
    if n.snapshotIndex + k < target {
      TurnArrives(cfg, p, log, n, applied, files);
      var m := Answer(cfg, n, FileAt(files, n.snapshotIndex + k)).node;
      ChaseTurn(cfg, n, m, target, files);
      ChaseArrives(cfg, p, log, m, applied, files, target);
    }
  }

  /** One turn of the loop. */
  lemma ChaseTurn(cfg: Config, n: Node, m: Node, target: nat, files: seq<Snapshot>)
    requires cfg.snapCount > 0 && Multiple(n.snapshotIndex, cfg.snapCount)
    requires n.snapshotIndex + cfg.snapCount < target && m.snapshotIndex == n.snapshotIndex + cfg.snapCount
    requires Answer(cfg, n, FileAt(files, n.snapshotIndex + cfg.snapCount)) == Again(m)
    ensures var k := cfg.snapCount;
            Chase(cfg, n, target, Answers(k, files, n.snapshotIndex + k, target))
            == Chase(cfg, m, target, Answers(k, files, m.snapshotIndex + k, target))
  {
    var rest := Answers(cfg.snapCount, files, m.snapshotIndex + cfg.snapCount, target);
    assert ([FileAt(files, n.snapshotIndex + cfg.snapCount)] + rest)[1..] == rest;
  }

  lemma FinishArrives(cfg: Config, p: Past, log: seq<Entry>, n: Node, applied: nat, s: Snapshot)
    requires Setting(cfg, log) && Decodable(log) && Story(cfg, p, log, |log|).Some?
    requires Arrived(cfg, p, log, applied, n.snapshotIndex, Running(n))
    requires Piece(cfg.snapCount, log, s, n.snapshotIndex)
    ensures Arrived(cfg, p, log, applied, s.index, FinishRecovery(cfg, n, s, None))
    ensures FinishRecovery(cfg, n, s, None).node.committedIndex == s.index
  {
    TakePiece(cfg, p, log, n, Max(applied, n.committedIndex), s);
  }

  lemma ChaseAndFinishArrives(cfg: Config, p: Past, log: seq<Entry>, n: Node, applied: nat, files: seq<Snapshot>,
                              s: Snapshot)
    requires Setting(cfg, log) && Decodable(log) && Story(cfg, p, log, |log|).Some?
    requires Arrived(cfg, p, log, applied, n.snapshotIndex, Running(n)) && Even(cfg.snapCount, log, files)
    requires s in files && n.snapshotIndex < s.index
    ensures var replies := Answers(cfg.snapCount, files, n.snapshotIndex + cfg.snapCount, s.index);
            var o := ChaseAndFinish(cfg, n, s, replies, None);
            Arrived(cfg, p, log, applied, s.index, o) && o.node.committedIndex == s.index
  {
    FilesArePieces(cfg.snapCount, log, files, s);
    ChaseArrives(cfg, p, log, n, applied, files, s.index);
    var replies := Answers(cfg.snapCount, files, n.snapshotIndex + cfg.snapCount, s.index);
    ThenFinish(cfg, p, log, n, Chase(cfg, n, s.index, replies).node, applied, s, replies);
  }

  lemma ThenFinish(cfg: Config, p: Past, log: seq<Entry>, n: Node, m: Node, applied: nat, s: Snapshot,
                   replies: seq<Reply>)
    requires Setting(cfg, log) && Decodable(log) && Story(cfg, p, log, |log|).Some?
    requires s.index >= cfg.snapCount && Piece(cfg.snapCount, log, s, s.index - cfg.snapCount)
    requires Chase(cfg, n, s.index, replies) == Running(m)
    requires Arrived(cfg, p, log, applied, s.index - cfg.snapCount, Running(m))
    ensures var o := ChaseAndFinish(cfg, n, s, replies, None);
            Arrived(cfg, p, log, applied, s.index, o) && o.node.committedIndex == s.index
  {
    FinishArrives(cfg, p, log, m, applied, s);
  }

  /** Which way a recovery from a piece goes: over the chain, or straight to the piece. */
  lemma RecoverGoes(cfg: Config, log: seq<Entry>, n: Node, s: Snapshot, replies: seq<Reply>, from: nat)
    requires cfg.snapCount > 0 && WellIndexed(log) && Piece(cfg.snapCount, log, s, from)
    requires n.snapshotIndex <= n.committedIndex < s.index
    ensures Recover(cfg, n, s, replies, None) == GoOn(cfg, n.(committedIndex := n.storageCommit), s, replies, from)
  {
    PieceEnds(cfg.snapCount, log, s);
  }

  ghost function GoOn(cfg: Config, n: Node, s: Snapshot, replies: seq<Reply>, from: nat): Outcome
    requires cfg.snapCount > 0
  {
    if n.committedIndex <= from && n.snapshotIndex <= from then ChaseAndFinish(cfg, n, s, replies, None)
    else FinishRecovery(cfg, n, s, None)
  }

  lemma OnlyThisPiece(snap: nat, c: nat, from: nat, k: nat)
    requires k > 0 && Multiple(snap, k) && Multiple(from, k)
    requires snap <= c < snap + k && c < from + k && (from < c || from < snap)
    ensures snap == from
  {
    if snap < from {
      MultiplesApart(snap, from, k);
    } else if from < snap {
      MultiplesApart(from, snap, k);
    }
  }

  /** Set back to what it has saved, a node is within reach of its next snapshot. */
  lemma WithinReach(cfg: Config, p: Past, log: seq<Entry>, n: Node, applied: nat)
    requires cfg.snapCount > 0 && Tiling(cfg, log, n) && LedgerInv(cfg, p, log, n, applied)
    requires n.snapshotIndex <= n.storageCommit <= n.committedIndex
    requires n.storageCommit < n.snapshotIndex + cfg.snapCount
    ensures Arrived(cfg, p, log, applied, n.snapshotIndex, Running(n.(committedIndex := n.storageCommit)))
  {
  }

  /** From a node set back, over the chain or straight to the piece. */
  lemma SetBackCatchesUp(cfg: Config, p: Past, log: seq<Entry>, n: Node, applied: nat, files: seq<Snapshot>,
                         s: Snapshot)
    requires Setting(cfg, log) && Decodable(log) && Story(cfg, p, log, |log|).Some?
    requires Arrived(cfg, p, log, applied, n.snapshotIndex, Running(n))
    requires Even(cfg.snapCount, log, files) && s in files && n.committedIndex < s.index
    ensures s.index >= cfg.snapCount
    ensures var k := cfg.snapCount;
            var o := GoOn(cfg, n, s, Answers(k, files, n.snapshotIndex + k, s.index), s.index - k);
            Arrived(cfg, p, log, applied, s.index, o) && o.node.committedIndex == s.index
  {
    var k := cfg.snapCount;
    FilesArePieces(k, log, files, s);
    var from := s.index - k;
    if n.committedIndex <= from && n.snapshotIndex <= from {
      ChaseAndFinishArrives(cfg, p, log, n, applied, files, s);
    } else {
      OnlyThisPiece(n.snapshotIndex, n.committedIndex, from, k);
      FinishArrives(cfg, p, log, n, applied, s);
    }
  }

  lemma RecoverGoesFrom(cfg: Config, log: seq<Entry>, n: Node, files: seq<Snapshot>, s: Snapshot)
    requires Setting(cfg, log) && Even(cfg.snapCount, log, files) && s in files
    requires n.snapshotIndex <= n.committedIndex < s.index
    ensures s.index >= cfg.snapCount
    ensures var replies := Answers(cfg.snapCount, files, n.snapshotIndex + cfg.snapCount, s.index);
            Recover(cfg, n, s, replies, None)
            == GoOn(cfg, n.(committedIndex := n.storageCommit), s, replies, s.index - cfg.snapCount)
  {
    var k := cfg.snapCount;
    FilesArePieces(k, log, files, s);
    RecoverGoes(cfg, log, n, s, Answers(k, files, n.snapshotIndex + k, s.index), s.index - k);
  }

  /** Arrived, and with no more than the leader's snapshot. */
  ghost predicate Reaches(cfg: Config, p: Past, log: seq<Entry>, applied: nat, target: nat, o: Outcome)
    requires cfg.snapCount > 0
  {
    Arrived(cfg, p, log, applied, target, o) && o.node.committedIndex == target
  }

  lemma GoOnReaches(cfg: Config, p: Past, log: seq<Entry>, n: Node, applied: nat, files: seq<Snapshot>, s: Snapshot)
    requires Setting(cfg, log) && Decodable(log) && Story(cfg, p, log, |log|).Some?
    requires Tiling(cfg, log, n) && LedgerInv(cfg, p, log, n, applied)
    requires Even(cfg.snapCount, log, files) && s in files
    requires n.snapshotIndex <= n.storageCommit <= n.committedIndex < s.index
    requires n.storageCommit < n.snapshotIndex + cfg.snapCount
    ensures s.index >= cfg.snapCount
    ensures var replies := Answers(cfg.snapCount, files, n.snapshotIndex + cfg.snapCount, s.index);
            Reaches(cfg, p, log, applied, s.index,
                    GoOn(cfg, n.(committedIndex := n.storageCommit), s, replies, s.index - cfg.snapCount))
  {
    WithinReach(cfg, p, log, n, applied);
    SetBackCatchesUp(cfg, p, log, n.(committedIndex := n.storageCommit), applied, files, s);
  }

  lemma CatchesUp(cfg: Config, p: Past, log: seq<Entry>, n: Node, applied: nat, files: seq<Snapshot>, s: Snapshot)
    requires Setting(cfg, log) && Decodable(log) && Story(cfg, p, log, |log|).Some?
    requires Tiling(cfg, log, n) && LedgerInv(cfg, p, log, n, applied)
    requires Even(cfg.snapCount, log, files) && s in files
    requires n.snapshotIndex <= n.storageCommit <= n.committedIndex < s.index
    requires n.storageCommit < n.snapshotIndex + cfg.snapCount
    ensures Reaches(cfg, p, log, applied, s.index,
                    Recover(cfg, n, s, Answers(cfg.snapCount, files, n.snapshotIndex + cfg.snapCount, s.index), None))
  {
    GoOnReaches(cfg, p, log, n, applied, files, s);
    RecoverGoesFrom(cfg, log, n, files, s);
  }

  /** A piece the node cannot use ends the chain where it began. */
  lemma ChaseStuck(cfg: Config, log: seq<Entry>, n: Node, files: seq<Snapshot>, target: nat)
    requires Setting(cfg, log) && Tiling(cfg, log, n) && Even(cfg.snapCount, log, files)
    requires n.snapshotIndex + cfg.snapCount <= target <= LastSnapshot(files)
    requires n.committedIndex < n.snapshotIndex || n.snapshotIndex + cfg.snapCount <= n.committedIndex
    ensures Chase(cfg, n, target, Answers(cfg.snapCount, files, n.snapshotIndex + cfg.snapCount, target)) == Running(n)
  {
    PieceFound(cfg, log, files, n.snapshotIndex);
    var piece := FileAt(files, n.snapshotIndex + cfg.snapCount).snap;
    PieceIsGenuine(cfg, log, piece, n.snapshotIndex);
    MissingIs(cfg, log, piece, n.committedIndex);
  }

  /** What a node has saved is too new for the first piece it asks for, or too old: it panics if it
      asks at all and is more than one snapshot away, and otherwise goes on, set back. */
  lemma StaysBehind(cfg: Config, log: seq<Entry>, n: Node, files: seq<Snapshot>, s: Snapshot)
    requires Setting(cfg, log) && Tiling(cfg, log, n)
    requires Even(cfg.snapCount, log, files) && s in files
    requires n.snapshotIndex <= n.committedIndex && n.storageCommit <= n.committedIndex < s.index
    requires n.storageCommit < n.snapshotIndex || n.snapshotIndex + cfg.snapCount <= n.storageCommit
    ensures var o := Recover(cfg, n, s, Answers(cfg.snapCount, files, n.snapshotIndex + cfg.snapCount, s.index), None);
            var n0 := n.(committedIndex := n.storageCommit);
            o == if n.snapshotIndex + cfg.snapCount < s.index && n.storageCommit + cfg.snapCount <= s.index
                 then Down(n0, None) else Running(n0)
  {
    var k := cfg.snapCount;
    FilesArePieces(k, log, files, s);
    RecoverGoes(cfg, log, n, s, Answers(k, files, n.snapshotIndex + k, s.index), s.index - k);
    MultiplesApart(n.snapshotIndex, s.index, k);
    ChaseStuck(cfg, log, n.(committedIndex := n.storageCommit), files, s.index);
    if n.snapshotIndex == s.index - k {
      PieceIsGenuine(cfg, log, s, n.snapshotIndex);
      MissingIs(cfg, log, s, n.storageCommit);
    }
  }

  /** A node asks from the term of its own last snapshot, and gets every piece up to the target. */
  lemma RightAnswers(cfg: Config, log: seq<Entry>, n: Node, files: seq<Snapshot>, s: Snapshot)
    requires Setting(cfg, log) && Tiling(cfg, log, n) && TermsGrow(log)
    requires Even(cfg.snapCount, log, files) && s in files
    ensures Asked(cfg.snapCount, files, n.snapshotIndex + cfg.snapCount, s.index, OwnTerm(n), SnapTerm(s))
         == Answers(cfg.snapCount, files, n.snapshotIndex + cfg.snapCount, s.index)
  {
    var k := cfg.snapCount;
    FilesArePieces(k, log, files, s);
    PieceTerm(log, s.index - k, k);
    OwnTermIs(cfg, log, n);
    EvenEnds(k, log, files);
    AskedFinds(cfg, log, files, n.snapshotIndex, s.index, OwnTerm(n), SnapTerm(s));
  }

  lemma OwnTermIs(cfg: Config, log: seq<Entry>, n: Node)
    requires cfg.snapCount > 0 && Tiling(cfg, log, n) && TermsGrow(log)
    ensures n.snapshotIndex + cfg.snapCount <= |log| ==> OwnTerm(n) <= log[n.snapshotIndex + cfg.snapCount - 1].term
  {
    if n.disk != [] {
      var s := n.disk[|n.disk| - 1];
      StretchAt(log, Start(s), s.index, |s.entries.value| - 1);
    }
  }

  /** Recovery from a leader that keeps up, whatever the distance: the node arrives exactly at the
      leader's snapshot if and only if what its storage has saved is its own last snapshot and less
      than snapCount entries more; and then it has the ledger the log itself would have given.
      Otherwise it is only set back to the saved commit index, which may be behind its snapshot, and
      panics or goes on, depending on how far it is from the leader's snapshot. */
  lemma RecoveryReachesTheTarget(cfg: Config, p: Past, log: seq<Entry>, n: Node, applied: nat,
                                 files: seq<Snapshot>, s: Snapshot)
    requires Setting(cfg, log) && Decodable(log) && TermsGrow(log) && Story(cfg, p, log, |log|).Some?
    requires Tiling(cfg, log, n) && LedgerInv(cfg, p, log, n, applied)
    requires Even(cfg.snapCount, log, files) && s in files
    requires n.snapshotIndex <= n.committedIndex && n.storageCommit <= n.committedIndex < s.index
    ensures var asked := Asked(cfg.snapCount, files, n.snapshotIndex + cfg.snapCount, s.index, OwnTerm(n), SnapTerm(s));
            var o := Recover(cfg, n, s, asked, None);
            var n0 := n.(committedIndex := n.storageCommit);
            if n.snapshotIndex <= n.storageCommit < n.snapshotIndex + cfg.snapCount then
              && o.Running? && o.node.committedIndex == s.index
              && o.node.snapshotIndex == s.index && Indices(cfg, log, o.node)
              && o.node.lastHeight == o.node.ledger.height
              && Story(cfg, p, log, Max(applied, s.index)) == Some(o.node.ledger)
            else o == if n.snapshotIndex + cfg.snapCount < s.index && n.storageCommit + cfg.snapCount <= s.index
                      then Down(n0, None) else Running(n0)
  {
    RightAnswers(cfg, log, n, files, s);
    if n.snapshotIndex <= n.storageCommit < n.snapshotIndex + cfg.snapCount {
      CatchesUp(cfg, p, log, n, applied, files, s);
    } else {
      StaysBehind(cfg, log, n, files, s);
    }
  }

  /** From where nothing is torn on, heights only grow, and as long as they do not the ledger stays. */
  lemma {:induction false} StoryGrows(cfg: Config, p: Past, log: seq<Entry>, d: nat, c: nat)
    requires CommitsInOrder(cfg) && MarkedUpTo(p, d) && d <= c <= |log| && Story(cfg, p, log, c).Some?
    ensures Story(cfg, p, log, d).Some?
    ensures var l, l1 := Story(cfg, p, log, d).value, Story(cfg, p, log, c).value;
            l.height <= l1.height && (l.height == l1.height ==> l == l1)
    decreases c
  {
    if d < c {
      StoryGoesOn(cfg, p, log, c - 1);
      StoryGrows(cfg, p, log, d, c - 1);
      ReplayEntryHeight(cfg, Story(cfg, p, log, c - 1).value, log[c - 1]);
    }
  }

  /** No entry from lo on carries a block of this height. */
  ghost predicate NoneOf(log: seq<Entry>, lo: nat, hi: nat, height: nat) {
    forall i :: lo <= i < hi && i < |log| && log[i].kind.BlockData? ==> log[i].kind.block.height != height
  }

  ghost predicate NewIn(log: seq<Entry>, lo: nat, hi: nat, height: nat) {
    exists i :: lo <= i < hi && i < |log| && log[i].kind.BlockData? && log[i].kind.block.height > height
  }

  /** Entries among which the very next block is missing: the node panics at the first that is newer,
      and until then stays as it is. */
  lemma {:induction false} NextBlockMissing(cfg: Config, log: seq<Entry>, n: Node, lo: nat, hi: nat)
    requires WellIndexed(log) && n.committedIndex <= lo <= hi <= |log|
    requires NoneOf(log, lo, hi, n.lastHeight + 1)
    ensures var r := CommitRange(cfg, n, log, lo, hi);
            && (r.None? <==> NewIn(log, lo, hi, n.lastHeight))
            && (r.Some? ==> r.value.ledger == n.ledger && r.value.lastHeight == n.lastHeight
                            && r.value.committedIndex <= hi)
    decreases hi
  {
    if lo < hi {
      NextBlockMissing(cfg, log, n, lo, hi - 1);
      var e := log[hi - 1];
      if NewIn(log, lo, hi, n.lastHeight) && !NewIn(log, lo, hi - 1, n.lastHeight) {
        assert e.kind.BlockData? && e.kind.block.height > n.lastHeight;
      }
      if e.kind.BlockData? && e.kind.block.height > n.lastHeight {
        assert NewIn(log, lo, hi, n.lastHeight);
      }
    }
  }

  /** Entries lo..hi replayed over any ledger. */
  ghost function ReplayRange(cfg: Config, l: State, log: seq<Entry>, lo: nat, hi: nat): Option<State>
    requires lo <= hi <= |log|
    decreases hi
  {
    if lo == hi then Some(l)
    else match ReplayRange(cfg, l, log, lo, hi - 1)
      case None => None
      case Some(l1) => ReplayEntry(cfg, l1, log[hi - 1])
  }

  /** Over the ledger of the story so far it is the rest of the story. */
  lemma {:induction false} RangeOfStory(cfg: Config, p: Past, log: seq<Entry>, lo: nat, hi: nat)
    requires lo <= hi <= |log| && MarkedUpTo(p, lo) && Story(cfg, p, log, lo).Some?
    ensures ReplayRange(cfg, Story(cfg, p, log, lo).value, log, lo, hi) == Story(cfg, p, log, hi)
    decreases hi
  {
    if lo < hi {
      RangeOfStory(cfg, p, log, lo, hi - 1);
      MarkedLater(p, lo, hi - 1);
      StoryGoesOn(cfg, p, log, hi - 1);
    }
  }

  lemma {:induction false} RangeSplits(cfg: Config, l: State, log: seq<Entry>, lo: nat, mid: nat, hi: nat)
    requires lo <= mid <= hi <= |log| && ReplayRange(cfg, l, log, lo, mid).Some?
    ensures ReplayRange(cfg, l, log, lo, hi)
         == ReplayRange(cfg, ReplayRange(cfg, l, log, lo, mid).value, log, mid, hi)
    decreases hi
  {
    if mid < hi {
      RangeSplits(cfg, l, log, lo, mid, hi - 1);
    }
  }

  /** A node handed only entries it has not committed replays them over its ledger, whatever that is. */
  lemma {:induction false} NewEntriesReplay(cfg: Config, log: seq<Entry>, n: Node, lo: nat, hi: nat)
    requires Setting(cfg, log) && n.committedIndex <= lo <= hi <= |log| && n.lastHeight == n.ledger.height
    ensures var r, l := CommitRange(cfg, n, log, lo, hi), ReplayRange(cfg, n.ledger, log, lo, hi);
            && (r.None? <==> l.None?)
            && (r.Some? ==> r.value.ledger == l.value && r.value.committedIndex <= hi
                            && r.value.lastHeight == r.value.ledger.height)
    decreases hi
  {
    if lo < hi {
      NewEntriesReplay(cfg, log, n, lo, hi - 1);
      var before := CommitRange(cfg, n, log, lo, hi - 1);
      if before.Some? {
        ApplyEntryReplays(cfg, before.value, log[hi - 1]);
      }
    }
  }

  /** What the branch above that goes on comes to, once the raft storage has been moved to the leader's
      snapshot at index `at` and hands over the entries behind it. If no new block lies between, all
      is well. Otherwise the node replays them over a ledger that lacks the blocks between: unless a
      block of the height it waits for comes again, it never has the right ledger again, and panics
      at the first new block it is handed. */
  lemma GapAfterSetback(cfg: Config, p: Past, log: seq<Entry>, n: Node, applied: nat, at: nat, hi: nat)
    requires Setting(cfg, log) && LedgerInv(cfg, p, log, n, applied)
    requires applied <= at <= hi <= |log| && Story(cfg, p, log, hi).Some?
    ensures Story(cfg, p, log, at).Some?
    ensures var r, l := CommitEntries(cfg, n, Stretch(log, at, hi)), ReplayRange(cfg, n.ledger, log, at, hi);
            && (r.None? <==> l.None?) && (r.Some? ==> r.value.ledger == l.value)
            && if Story(cfg, p, log, at).value.height == n.ledger.height then l == Story(cfg, p, log, hi)
               else NoneOf(log, at, hi, n.lastHeight + 1) ==>
                 && (l.None? <==> NewIn(log, at, hi, n.lastHeight))
                 && (l.Some? ==> l.value == n.ledger && Story(cfg, p, log, hi) != l)
  {
    MarkedLater(p, applied, at);
    StoryGrows(cfg, p, log, at, hi);
    StoryGrows(cfg, p, log, applied, at);
    RangeIs(cfg, n, log, at, hi);
    NewEntriesReplay(cfg, log, n, at, hi);
    if Story(cfg, p, log, at).value.height == n.ledger.height {
      RangeOfStory(cfg, p, log, at, hi);
    } else if NoneOf(log, at, hi, n.lastHeight + 1) {
      NextBlockMissing(cfg, log, n, at, hi);
    }
  }

  lemma {:induction false} OldBlocksOnly(cfg: Config, l: State, log: seq<Entry>, lo: nat, hi: nat)
    requires lo <= hi <= |log| && !NewIn(log, lo, hi, l.height)
    ensures ReplayRange(cfg, l, log, lo, hi) == Some(l)
    decreases hi
  {
    if lo < hi {
      OldBlocksOnly(cfg, l, log, lo, hi - 1);
    }
  }

  /** And if one does come again in time, in entry number i: where it takes the node's ledger to the
      story's at `at` - as the one missing block does -, the node has the right ledger from there on. */
  lemma RepeatedBlockCloses(cfg: Config, p: Past, log: seq<Entry>, n: Node, applied: nat, at: nat, i: nat, hi: nat)
    requires Setting(cfg, log) && LedgerInv(cfg, p, log, n, applied)
    requires applied <= at <= i < hi <= |log| && Story(cfg, p, log, hi).Some?
    requires !NewIn(log, at, i, n.lastHeight) && log[i].kind.BlockData? && log[i].kind.block.height == n.lastHeight + 1
    requires ReplayEntry(cfg, n.ledger, log[i]) == Story(cfg, p, log, at)
    ensures var r := CommitEntries(cfg, n, Stretch(log, at, hi));
            r.Some? && Some(r.value.ledger) == Story(cfg, p, log, hi)
  {
    MarkedLater(p, applied, at);
    StoryGrows(cfg, p, log, at, hi);
    GapCloses(cfg, n.ledger, Story(cfg, p, log, at).value, log, at, i, hi);
    RangeOfStory(cfg, p, log, at, hi);
    RangeIs(cfg, n, log, at, hi);
    NewEntriesReplay(cfg, log, n, at, hi);
  }

  lemma GapCloses(cfg: Config, l: State, l1: State, log: seq<Entry>, at: nat, i: nat, hi: nat)
    requires CommitsInOrder(cfg) && at <= i < hi <= |log| && !NewIn(log, at, i, l.height)
    requires log[i].kind.BlockData? && log[i].kind.block.height == l.height + 1
    requires ReplayEntry(cfg, l, log[i]) == Some(l1)
    ensures ReplayRange(cfg, l, log, at, hi) == ReplayRange(cfg, l1, log, at, hi)
  {
    ReplayEntryHeight(cfg, l, log[i]);
    OldBlocksOnly(cfg, l, log, at, i);
    OldBlocksOnly(cfg, l1, log, at, i + 1);
    RangeSplits(cfg, l, log, at, i + 1, hi);
    RangeSplits(cfg, l1, log, at, i + 1, hi);
  }

  /** How a node gets into that state: a Ready that hands over entries without a hard state, as raft
      does when it hands them over in pages, can move the snapshot past the saved commit index. */
  lemma PagesLeaveTheSavedIndexBehind(cfg: Config, log: seq<Entry>, n: Node, rd: Ready, w: World, lo: nat, hi: nat)
    requires Setting(cfg, log) && Tiling(cfg, log, n) && n.storageCommit < n.snapshotIndex + cfg.snapCount
    requires rd.snapshot.None? && rd.hard.None? && w.savedSnapshot
    requires lo <= hi <= |log| && rd.committed == Stretch(log, lo, hi)
    ensures var o := HandleReady(cfg, log, n, rd, w);
            o.Running? && o.node.disk != n.disk ==> o.node.storageCommit < o.node.snapshotIndex
  {
    if CommitEntries(cfg, n, rd.committed).Some? {
      EntriesWithin(cfg, n, log, lo, hi);
      var m := CommitEntries(cfg, n, rd.committed).value;
      TriggerTiles(cfg, log, m, true);
      MaybeSnapshotFrame(cfg, log, m, true);
      if m.committedIndex >= m.snapshotIndex + cfg.snapCount {
        RoundedDown(m.committedIndex, cfg.snapCount);
        MultiplesApart(m.snapshotIndex, m.committedIndex - m.committedIndex % cfg.snapCount, cfg.snapCount);
      }
    } else {
      PanicFrame(cfg, n, rd.committed);
    }
  }

  /** Such a Ready on a fresh node, and the snapshot it takes: snapCount entries without data. */
  lemma PagesHappen(cfg: Config, l0: State, log: seq<Entry>, w: World)
    requires Setting(cfg, log) && |log| == cfg.snapCount && w.savedSnapshot
    requires forall i :: 0 <= i < |log| ==> log[i].kind.NoData?
    ensures var n := Fresh(l0).outcome.node;
            var o := HandleReady(cfg, log, n, Ready(None, Stretch(log, 0, |log|), None), w);
            && o.Running? && o.node.disk == [Snapshot(|log|, Some(log))]
            && o.node.storageCommit == 0 < o.node.snapshotIndex == |log|
  {
    var n := Fresh(l0).outcome.node;
    NoDataCommits(cfg, n, log, |log|);
    RangeIs(cfg, n, log, 0, |log|);
    FirstSnapshot(cfg, log, n.(committedIndex := |log|));
  }

  lemma FirstSnapshot(cfg: Config, log: seq<Entry>, n: Node)
    requires cfg.snapCount > 0 && |log| == cfg.snapCount == n.committedIndex
    requires n.snapshotIndex == 0 && n.firstIndex == 1 && n.disk == []
    ensures MaybeSnapshot(cfg, log, n, true)
         == n.(disk := [Snapshot(|log|, Some(log))], snapshotIndex := |log|, firstIndex := |log| + 1)
  {
    MultipleIffNoRemainder(|log|, cfg.snapCount);
    StretchIsSlice(log, 0, |log|);
    assert log[0..|log|] == log;
  }

  lemma {:induction false} NoDataCommits(cfg: Config, n: Node, log: seq<Entry>, hi: nat)
    requires WellIndexed(log) && hi <= |log| && n.committedIndex == 0
    requires forall i :: 0 <= i < |log| ==> log[i].kind.NoData?
    ensures CommitRange(cfg, n, log, 0, hi) == Some(n.(committedIndex := hi))
  {
    if hi > 0 {
      NoDataCommits(cfg, n, log, hi - 1);
    }
  }

  lemma {:induction false} FilesArePieces(k: nat, log: seq<Entry>, files: seq<Snapshot>, s: Snapshot)
    requires k > 0 && Even(k, log, files) && s in files
    ensures k <= s.index <= LastSnapshot(files) && Multiple(s.index, k) && Multiple(s.index - k, k)
    ensures Piece(k, log, s, s.index - k)
    decreases |files|
  {
    var init := files[..|files| - 1];
    LastIsMultiple(k, log, init);
    if s != files[|files| - 1] {
      assert s in init;
      FilesArePieces(k, log, init, s);
    }
  }

  lemma PieceEnds(k: nat, log: seq<Entry>, s: Snapshot)
    requires k > 0 && WellIndexed(log) && k <= s.index && Piece(k, log, s, s.index - k)
    ensures |s.entries.value| == k
    ensures s.entries.value[0].index == s.index - k + 1 && s.entries.value[k - 1].index == s.index
  {
    StretchIsSlice(log, s.index - k, s.index);
  }
}
