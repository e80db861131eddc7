/** Exactly-once application of the log, over any run with re-delivery, snapshots and crashes. */
module RaftSafety {
  import opened Bytes
  import opened Options
  import opened Ledger
  import opened Rewards
  import opened Multiples
  import opened RaftSpec
  import T = TokenExec

  /** The committed log, the same on every node: entry i+1 at position i. */
  ghost predicate WellIndexed(log: seq<Entry>) {
    forall i :: 0 <= i < |log| ==> log[i].index == i + 1
  }

  /** A committed block moves the ledger to the height of the block, one half committed leaves it. */
  ghost predicate CommitsInOrder(cfg: Config) {
    && (forall l: State, b: Block ::
          cfg.commit(l, b).Some? && b.height == l.height + 1 ==> cfg.commit(l, b).value.height == b.height)
    && forall l: State, b: Block, j: nat :: cfg.torn(l, b, j).height == l.height
  }

  lemma StoredHeight(l: State, b: Block, minaddr: bytes)
    requires T.WellStored(l.tokens) && ValidTxs(b.txs) && WithBlock(l, b, minaddr).Some?
    ensures WithBlock(l, b, minaddr).value.height == Add64(l.height, 1)
  {
  }

  lemma CommitHeight(l: State, b: Block, minaddr: bytes)
    requires T.WellStored(l.tokens) && ValidTxs(b.txs) && b.height as int == l.height as int + 1
    ensures var r := WithBlock(l, b, minaddr); r.Some? ==> r.value.height == b.height
  {
    AddOne(l.height);
    if WithBlock(l, b, minaddr).Some? {
      StoredHeight(l, b, minaddr);
    }
  }

  lemma NodesCommitInOrder(snapCount: nat, accepts: (State, Block) -> bool, minaddr: bytes)
    ensures CommitsInOrder(NodeConfig(snapCount, accepts, minaddr))
  {
    var cfg := NodeConfig(snapCount, accepts, minaddr);
    forall l: State, b: Block | cfg.commit(l, b).Some? && b.height == l.height + 1
      ensures cfg.commit(l, b).value.height == b.height
    {
      CommitHeight(l, b, minaddr);
    }
  }

  /** What everything below is about: a log, and a node that commits blocks in order. */
  ghost predicate Setting(cfg: Config, log: seq<Entry>) {
    cfg.snapCount > 0 && CommitsInOrder(cfg) && WellIndexed(log)
  }

  // ---------------------------------------------------------------- replaying the log

  /** What one entry means for a ledger, wherever it comes from. */
  ghost function ReplayEntry(cfg: Config, l: State, e: Entry): Option<State> {
    if !e.kind.BlockData? || e.kind.block.height <= l.height then Some(l)
    else if e.kind.block.height - l.height != 1 || !cfg.accepts(l, e.kind.block) then None
    else cfg.commit(l, e.kind.block)
  }

  /** The ledger a log starts from, and what happened to it other than by the log. */
  datatype Past = Past(l0: State, marks: seq<Mark>)

  /** What one mark does to a ledger in front of the entry behind k others. */
  ghost function MarkedOnce(cfg: Config, l: State, log: seq<Entry>, k: nat, t: Mark): State
    requires k <= |log|
  {
    match t
    case Tear(_, j) => if k < |log| && log[k].kind.BlockData? then cfg.torn(l, log[k].kind.block, j) else l
    case Local(_, op) => LocalChange(l, op)
  }

  /** And all of them. */
  ghost function Marked(cfg: Config, l: State, log: seq<Entry>, k: nat, marks: seq<Mark>): State
    requires k <= |log|
  {
    if marks == [] then l
    else
      var t := marks[|marks| - 1];
      var l1 := Marked(cfg, l, log, k, marks[..|marks| - 1]);
      if t.at == k then MarkedOnce(cfg, l1, log, k, t) else l1
  }

  /** The ledger the first k entries of the log stand for, each applied once from front to back, with
      the marks the past has left. */
  ghost function Story(cfg: Config, p: Past, log: seq<Entry>, k: nat): Option<State>
    requires k <= |log|
  {
    if k == 0 then Some(Marked(cfg, p.l0, log, 0, p.marks))
    else match Story(cfg, p, log, k - 1)
      case None => None
      case Some(l) =>
        match ReplayEntry(cfg, l, log[k - 1])
        case None => None
        case Some(l1) => Some(Marked(cfg, l1, log, k, p.marks))
  }

  /** And without any. */
  ghost function Replay(cfg: Config, l0: State, log: seq<Entry>, k: nat): Option<State>
    requires k <= |log|
  {
    if k == 0 then Some(l0)
    else match Replay(cfg, l0, log, k - 1)
      case None => None
      case Some(l) => ReplayEntry(cfg, l, log[k - 1])
  }

  lemma {:induction false} MarkedHeight(cfg: Config, l: State, log: seq<Entry>, k: nat, marks: seq<Mark>)
    requires CommitsInOrder(cfg) && k <= |log|
    ensures Marked(cfg, l, log, k, marks).height == l.height
  {
    if marks != [] {
      MarkedHeight(cfg, l, log, k, marks[..|marks| - 1]);
    }
  }

  ghost predicate NoneAt(marks: seq<Mark>, k: nat) {
    forall i :: 0 <= i < |marks| ==> marks[i].at != k
  }

  lemma {:induction false} UnmarkedHere(cfg: Config, l: State, log: seq<Entry>, k: nat, marks: seq<Mark>)
    requires k <= |log| && NoneAt(marks, k)
    ensures Marked(cfg, l, log, k, marks) == l
  {
    if marks != [] {
      assert forall i :: 0 <= i < |marks| - 1 ==> marks[..|marks| - 1][i] == marks[i];
      UnmarkedHere(cfg, l, log, k, marks[..|marks| - 1]);
    }
  }

  /** Marks come in the order of the log, and none from position k on but perhaps in front of the very
      next entry. */
  ghost predicate MarkedUpTo(p: Past, k: nat) {
    InLine(p.marks, k)
  }

  ghost predicate InLine(marks: seq<Mark>, k: nat) {
    marks == [] || (marks[|marks| - 1].at <= k && InLine(marks[..|marks| - 1], marks[|marks| - 1].at))
  }

  lemma {:induction false} NoneBeyond(marks: seq<Mark>, k: nat, j: nat)
    requires InLine(marks, k) && k < j
    ensures NoneAt(marks, j)
  {
    if marks != [] {
      var init := marks[..|marks| - 1];
      NoneBeyond(init, marks[|marks| - 1].at, j);
      forall i | 0 <= i < |marks| ensures marks[i].at != j {
        assert i < |init| ==> init[i] == marks[i];
      }
    }
  }

  lemma MarkedLater(p: Past, k: nat, j: nat)
    requires MarkedUpTo(p, k) && k <= j
    ensures MarkedUpTo(p, j)
  {
  }

  lemma MarkedWith(p: Past, t: Mark)
    requires MarkedUpTo(p, t.at)
    ensures MarkedUpTo(p.(marks := p.marks + [t]), t.at)
  {
    assert (p.marks + [t])[..|p.marks|] == p.marks;
  }

  lemma StoryGoesOn(cfg: Config, p: Past, log: seq<Entry>, k: nat)
    requires k < |log| && MarkedUpTo(p, k)
    ensures Story(cfg, p, log, k + 1) ==
            match Story(cfg, p, log, k) case None => None case Some(l) => ReplayEntry(cfg, l, log[k])
  {
    var r := Story(cfg, p, log, k);
    if r.Some? && ReplayEntry(cfg, r.value, log[k]).Some? {
      NoneBeyond(p.marks, k, k + 1);
      UnmarkedHere(cfg, ReplayEntry(cfg, r.value, log[k]).value, log, k + 1, p.marks);
    }
  }

  lemma {:induction false} OneMoreMark(cfg: Config, p: Past, log: seq<Entry>, k: nat, t: Mark)
    requires k <= |log| && k <= t.at
    ensures var q := p.(marks := p.marks + [t]);
            Story(cfg, q, log, k) ==
            match Story(cfg, p, log, k)
            case None => None
            case Some(l) =>
              Some(if t.at == k then MarkedOnce(cfg, l, log, k, t) else l)
  {
    assert (p.marks + [t])[..|p.marks|] == p.marks;
    if k > 0 {
      OneMoreMark(cfg, p, log, k - 1, t);
    }
  }

  lemma ReplayEntryHeight(cfg: Config, l: State, e: Entry)
    requires CommitsInOrder(cfg) && ReplayEntry(cfg, l, e).Some?
    ensures l.height <= ReplayEntry(cfg, l, e).value.height <= l.height + 1
    ensures e.kind.BlockData? ==> e.kind.block.height <= ReplayEntry(cfg, l, e).value.height
    ensures ReplayEntry(cfg, ReplayEntry(cfg, l, e).value, e) == ReplayEntry(cfg, l, e)
    ensures l.height == ReplayEntry(cfg, l, e).value.height <==> l == ReplayEntry(cfg, l, e).value
    ensures l == ReplayEntry(cfg, l, e).value <==> (e.kind.BlockData? ==> e.kind.block.height <= l.height)
  {
  }

  lemma StoryStep(cfg: Config, p: Past, log: seq<Entry>, k: nat)
    requires CommitsInOrder(cfg) && k < |log| && Story(cfg, p, log, k + 1).Some?
    ensures Story(cfg, p, log, k).Some?
    ensures ReplayEntry(cfg, Story(cfg, p, log, k).value, log[k]).Some?
    ensures Story(cfg, p, log, k + 1).value.height
            == ReplayEntry(cfg, Story(cfg, p, log, k).value, log[k]).value.height
  {
    var l1 := ReplayEntry(cfg, Story(cfg, p, log, k).value, log[k]).value;
    MarkedHeight(cfg, l1, log, k + 1, p.marks);
  }

  predicate Stale(l: State, e: Entry) {
    e.kind.BlockData? ==> e.kind.block.height <= l.height
  }

  /** An entry already replayed is stale for good: its block is not above the ledger's height. */
  lemma {:induction false} StaleEntry(cfg: Config, p: Past, log: seq<Entry>, i: nat, k: nat)
    requires CommitsInOrder(cfg) && i < k <= |log| && Story(cfg, p, log, k).Some?
    ensures Stale(Story(cfg, p, log, k).value, log[i])
    ensures ReplayEntry(cfg, Story(cfg, p, log, k).value, log[i]) == Story(cfg, p, log, k)
  {
    StoryStep(cfg, p, log, k - 1);
    ReplayEntryHeight(cfg, Story(cfg, p, log, k - 1).value, log[k - 1]);
    if i < k - 1 {
      StaleEntry(cfg, p, log, i, k - 1);
    }
  }

  /** The blocks a replay really applies. */
  ghost function AppliedBlocks(cfg: Config, p: Past, log: seq<Entry>, k: nat): seq<Block>
    requires k <= |log|
  {
    if k == 0 then []
    else
      AppliedBlocks(cfg, p, log, k - 1) +
      match Story(cfg, p, log, k - 1)
      case None => []
      case Some(l) => if Stale(l, log[k - 1]) then [] else [log[k - 1].kind.block]
  }

  ghost function CommitAll(cfg: Config, l0: State, bs: seq<Block>): Option<State> {
    if bs == [] then Some(l0)
    else match CommitAll(cfg, l0, bs[..|bs| - 1])
      case None => None
      case Some(l) => cfg.commit(l, bs[|bs| - 1])
  }

  /** The blocks of a replayed ledger have consecutive heights, and it has counted each of them once. */
  lemma {:induction false} HeightsContiguous(cfg: Config, p: Past, log: seq<Entry>, k: nat)
    requires CommitsInOrder(cfg) && k <= |log| && Story(cfg, p, log, k).Some?
    ensures var bs := AppliedBlocks(cfg, p, log, k);
            && Story(cfg, p, log, k).value.height == p.l0.height + |bs|
            && forall i :: 0 <= i < |bs| ==> bs[i].height == p.l0.height + i + 1
  {
    if k == 0 {
      MarkedHeight(cfg, p.l0, log, 0, p.marks);
    } else {
      StoryStep(cfg, p, log, k - 1);
      HeightsContiguous(cfg, p, log, k - 1);
      ReplayEntryHeight(cfg, Story(cfg, p, log, k - 1).value, log[k - 1]);
    }
  }

  /** Without marks it is the commit of just these blocks, one after the other. */
  lemma {:induction false} ReplayCommits(cfg: Config, l0: State, log: seq<Entry>, k: nat)
    requires k <= |log| && Replay(cfg, l0, log, k).Some?
    ensures Story(cfg, Past(l0, []), log, k) == Replay(cfg, l0, log, k)
    ensures CommitAll(cfg, l0, AppliedBlocks(cfg, Past(l0, []), log, k)) == Replay(cfg, l0, log, k)
  {
    if k > 0 {
      ReplayCommits(cfg, l0, log, k - 1);
      var l, bs, e := Replay(cfg, l0, log, k - 1).value, AppliedBlocks(cfg, Past(l0, []), log, k - 1), log[k - 1];
      if !Stale(l, e) {
        assert (bs + [e.kind.block])[..|bs|] == bs;
      } else {
        assert AppliedBlocks(cfg, Past(l0, []), log, k) == bs;
      }
    }
  }

  // ---------------------------------------------------------------- the invariant

  function Max(a: nat, b: nat): nat {
    if a < b then b else a
  }

  /** The node's ledger is the replay of the first `applied` entries and its indices are behind. */
  ghost predicate LedgerInv(cfg: Config, p: Past, log: seq<Entry>, n: Node, applied: nat) {
    && applied <= |log|
    && n.committedIndex <= applied
    && n.lastHeight == n.ledger.height
    && Story(cfg, p, log, applied) == Some(n.ledger)
    && MarkedUpTo(p, applied)
  }

  /** One entry changes the ledger as its replay does, or not at all if it is already committed. */
  lemma ApplyEntryReplays(cfg: Config, n: Node, e: Entry)
    requires CommitsInOrder(cfg) && n.lastHeight == n.ledger.height
    ensures ApplyEntry(cfg, n, e).None? <==> e.index > n.committedIndex && ReplayEntry(cfg, n.ledger, e).None?
    ensures ApplyEntry(cfg, n, e).Some? ==>
              var m := ApplyEntry(cfg, n, e).value;
              && m == n.(ledger := m.ledger, lastHeight := m.lastHeight, committedIndex := m.committedIndex)
              && m.lastHeight == m.ledger.height
              && n.committedIndex <= m.committedIndex <= Max(n.committedIndex, e.index)
              && m.ledger == (if e.index <= n.committedIndex then n.ledger else ReplayEntry(cfg, n.ledger, e).value)
              && (m.ledger != n.ledger ==> m.committedIndex == e.index)
  {
  }

  /** The result of committing entries lo..hi of the log. */
  ghost predicate Advanced(cfg: Config, p: Past, log: seq<Entry>, n: Node, applied: nat, hi: nat, m: Node) {
    && LedgerInv(cfg, p, log, m, Max(applied, hi))
    && m == n.(ledger := m.ledger, lastHeight := m.lastHeight, committedIndex := m.committedIndex)
    && n.committedIndex <= m.committedIndex <= Max(n.committedIndex, hi)
    && forall x :: Max(applied, m.committedIndex) <= x <= Max(applied, hi) ==> Story(cfg, p, log, x) == Some(m.ledger)
  }

  /** How committing a stretch of the log that ends at hi comes out: a panic exactly if the log
      cannot be replayed that far. */
  ghost predicate Committed(cfg: Config, p: Past, log: seq<Entry>, n: Node, applied: nat, hi: nat, r: Option<Node>)
    requires hi <= |log|
  {
    && (r.None? <==> hi > applied && Story(cfg, p, log, hi) == None)
    && (r.Some? ==> Advanced(cfg, p, log, n, applied, hi, r.value))
  }

  lemma OneEntry(cfg: Config, p: Past, log: seq<Entry>, n: Node, m: Node, applied: nat, hi: nat)
    requires Setting(cfg, log) && hi < |log| && applied <= |log|
    requires Committed(cfg, p, log, n, applied, hi, Some(m))
    ensures Committed(cfg, p, log, n, applied, hi + 1, ApplyEntry(cfg, m, log[hi]))
  {
    var e := log[hi];
    ApplyEntryReplays(cfg, m, e);
    if hi < applied {
      StaleEntry(cfg, p, log, hi, applied);
    } else {
      StoryGoesOn(cfg, p, log, hi);
    }
    if ApplyEntry(cfg, m, e).Some? {
      var m1 := ApplyEntry(cfg, m, e).value;
      forall x | Max(applied, m1.committedIndex) <= x <= Max(applied, hi + 1)
        ensures Story(cfg, p, log, x) == Some(m1.ledger)
      {
      }
    }
  }

  /** Entries lo..hi of the log, without the slice. */
  ghost function CommitRange(cfg: Config, n: Node, log: seq<Entry>, lo: nat, hi: nat): Option<Node>
    requires lo <= hi <= |log|
  {
    if lo == hi then Some(n)
    else match CommitRange(cfg, n, log, lo, hi - 1)
      case None => None
      case Some(m) => ApplyEntry(cfg, m, log[hi - 1])
  }

  lemma {:induction false} RangeIs(cfg: Config, n: Node, log: seq<Entry>, lo: nat, hi: nat)
    requires lo <= hi <= |log|
    ensures CommitEntries(cfg, n, Stretch(log, lo, hi)) == CommitRange(cfg, n, log, lo, hi)
  {
    if lo < hi {
      RangeIs(cfg, n, log, lo, hi - 1);
      assert Stretch(log, lo, hi)[..hi - lo - 1] == Stretch(log, lo, hi - 1);
    }
  }

  lemma {:induction false} RangeCommitted(cfg: Config, p: Past, log: seq<Entry>, n: Node, applied: nat,
                                          lo: nat, hi: nat)
    requires Setting(cfg, log) && lo <= hi <= |log| && lo <= applied
    requires LedgerInv(cfg, p, log, n, applied)
    ensures Committed(cfg, p, log, n, applied, hi, CommitRange(cfg, n, log, lo, hi))
    decreases hi
  {
    if lo < hi {
      RangeCommitted(cfg, p, log, n, applied, lo, hi - 1);
      var before := CommitRange(cfg, n, log, lo, hi - 1);
      if before.Some? {
        OneEntry(cfg, p, log, n, before.value, applied, hi - 1);
      }
    }
  }

  /** Committing any stretch of the log that leaves no gap - re-delivered in part or whole, with
      entries that do not decode among them - brings the ledger to the replay of everything up to
      its end; and it panics exactly when that replay does. */
  lemma CommitSlice(cfg: Config, p: Past, log: seq<Entry>, n: Node, applied: nat, lo: nat, hi: nat)
    requires Setting(cfg, log) && lo <= hi <= |log| && lo <= applied
    requires LedgerInv(cfg, p, log, n, applied)
    ensures Committed(cfg, p, log, n, applied, hi, CommitEntries(cfg, n, Stretch(log, lo, hi)))
  {
    RangeIs(cfg, n, log, lo, hi);
    RangeCommitted(cfg, p, log, n, applied, lo, hi);
  }

  // ---------------------------------------------------------------- recovery from snapshots

  /** A snapshot some node has made: a stretch of the log between two multiples of snapCount. */
  ghost predicate Genuine(cfg: Config, log: seq<Entry>, s: Snapshot)
    requires cfg.snapCount > 0
  {
    && s.entries.Some? && 0 < |s.entries.value| <= s.index <= |log|
    && s.entries.value == Stretch(log, Start(s), s.index)
    && Multiple(s.index, cfg.snapCount) && Multiple(Start(s), cfg.snapCount)
  }

  /** The index a snapshot starts after. */
  function Start(s: Snapshot): int
    requires s.entries.Some?
  {
    s.index - |s.entries.value|
  }

  ghost predicate GenuineOrEmpty(cfg: Config, log: seq<Entry>, s: Snapshot)
    requires cfg.snapCount > 0
  {
    s.entries == None || s.entries == Some([]) || Genuine(cfg, log, s)
  }

  ghost predicate GenuineReplies(cfg: Config, log: seq<Entry>, replies: seq<Reply>)
    requires cfg.snapCount > 0
    decreases |replies|
  {
    replies == [] ||
    ((replies[0].Reply? || replies[0].Cut? ==> GenuineOrEmpty(cfg, log, replies[0].snap))
     && GenuineReplies(cfg, log, replies[1..]))
  }

  /** What a node at c is missing of a genuine snapshot is that stretch of the log, provided the
      snapshot reaches back far enough. */
  lemma MissingIs(cfg: Config, log: seq<Entry>, s: Snapshot, c: nat)
    requires cfg.snapCount > 0 && WellIndexed(log) && GenuineOrEmpty(cfg, log, s)
    ensures var r := Missing(c, s);
            && (Genuine(cfg, log, s) ==> (r.Some? <==> Start(s) <= c < s.index))
            && (r.Some? ==> Genuine(cfg, log, s) && r.value == Stretch(log, c, s.index))
  {
    if Genuine(cfg, log, s) {
      var es := s.entries.value;
      StretchIsSlice(log, Start(s), s.index);
      assert es[0] == log[Start(s)] && es[|es| - 1] == log[s.index - 1];
      if Start(s) <= c < s.index {
        StretchOfStretch(log, Start(s), s.index, c - Start(s), |es|);
      }
    }
  }

  /** A ledger that would commit the block of an entry. */
  ghost predicate Takes(cfg: Config, l: State, e: Entry) {
    e.kind.BlockData? && e.kind.block.height == l.height + 1 && cfg.accepts(l, e.kind.block)
  }

  ghost predicate TornThere(cfg: Config, p: Past, log: seq<Entry>, t: Mark) {
    && t.Tear? && t.at < |log|
    && Story(cfg, p, log, t.at).Some? && Takes(cfg, Story(cfg, p, log, t.at).value, log[t.at])
  }

  /** Blocks panic only where the log cannot be replayed, and are torn only by a crash in their commit. */
  ghost predicate StopsAt(cfg: Config, p: Past, log: seq<Entry>, o: Outcome) {
    && (o.Halted? ==> o.at < |log| && Story(cfg, p, log, o.at + 1) == None)
    && (!o.Running? && o.torn.Some? ==> TornThere(cfg, p, log, o.torn.value))
  }

  /** After recovery, finished or broken off, the ledger is the replay up to wherever the node has
      committed or had already applied before. */
  ghost predicate Recovered(cfg: Config, p: Past, log: seq<Entry>, applied: nat, n: Node, o: Outcome) {
    && applied <= Reached(applied, o) && LedgerInv(cfg, PastAfter(p, o), log, o.node, Reached(applied, o))
    && n.committedIndex <= o.node.committedIndex
    && o.node.walCommit == n.walCommit && o.node.storageCommit == n.storageCommit
    && StopsAt(cfg, p, log, o)
  }

  lemma {:induction false} StoryPrefix(cfg: Config, p: Past, log: seq<Entry>, k: nat, t: nat)
    requires k <= t <= |log| && Story(cfg, p, log, k) == None
    ensures Story(cfg, p, log, t) == None
  {
    if k < t {
      StoryPrefix(cfg, p, log, k, t - 1);
    }
  }

  /** Committing the log on from where the node stands. */
  lemma OnwardKeeps(cfg: Config, p: Past, log: seq<Entry>, n: Node, applied: nat, hi: nat)
    requires Setting(cfg, log) && LedgerInv(cfg, p, log, n, applied) && n.committedIndex <= hi <= |log|
    ensures match CommitEntries(cfg, n, Stretch(log, n.committedIndex, hi))
            case None => Recovered(cfg, p, log, applied, n, Panicked(cfg, n, Stretch(log, n.committedIndex, hi)))
            case Some(m) => Recovered(cfg, p, log, applied, n, Running(m))
                            && LedgerInv(cfg, p, log, m.(committedIndex := hi), Max(applied, hi))
  {
    CommitSlice(cfg, p, log, n, applied, n.committedIndex, hi);
    var r := CommitEntries(cfg, n, Stretch(log, n.committedIndex, hi));
    if r.None? {
      PanicRecovered(cfg, p, log, n, applied, hi);
    } else {
      var m := r.value;
      assert Advanced(cfg, p, log, n, applied, hi, m);
      assert Story(cfg, p, log, Max(applied, m.committedIndex)) == Some(m.ledger);
    }
  }

  lemma PanicRecovered(cfg: Config, p: Past, log: seq<Entry>, n: Node, applied: nat, hi: nat)
    requires Setting(cfg, log) && LedgerInv(cfg, p, log, n, applied) && n.committedIndex <= hi <= |log|
    requires CommitEntries(cfg, n, Stretch(log, n.committedIndex, hi)) == None
    ensures Recovered(cfg, p, log, applied, n, Panicked(cfg, n, Stretch(log, n.committedIndex, hi)))
  {
    PanicKeeps(cfg, p, log, n, applied, n.committedIndex, hi);
  }

  lemma TakeOverKeeps(cfg: Config, p: Past, log: seq<Entry>, n: Node, applied: nat, s: Snapshot)
    requires Setting(cfg, log) && LedgerInv(cfg, p, log, n, applied) && n.committedIndex <= s.index <= |log|
    ensures match TakeOver(cfg, n, s, Stretch(log, n.committedIndex, s.index))
            case None => true
            case Some(m) => Recovered(cfg, p, log, applied, n, Running(m))
  {
    OnwardKeeps(cfg, p, log, n, applied, s.index);
  }

  /** What has become of the marks once outcome o is reached. */
  function MarksAfter(marks: seq<Mark>, o: Outcome): seq<Mark> {
    if !o.Running? && o.torn.Some? then marks + [o.torn.value] else marks
  }

  function PastAfter(p: Past, o: Outcome): Past {
    p.(marks := MarksAfter(p.marks, o))
  }

  /** How far into the log a node has come once it reaches outcome o. */
  function Reached(applied: nat, o: Outcome): nat {
    if o.Halted? then o.at
    else if o.Down? && o.torn.Some? then o.torn.value.at
    else Max(applied, o.node.committedIndex)
  }

  /** A crash while the entry behind x others is being committed marks a block only if that is the
      next one to commit. */
  lemma CrashKeeps(cfg: Config, p: Past, log: seq<Entry>, m: Node, applied: nat, x: nat, j: nat)
    requires Setting(cfg, log) && x < |log| && LedgerInv(cfg, p, log, m, Max(applied, x))
    ensures var o := CrashAt(cfg, m, log[x], j);
            && LedgerInv(cfg, PastAfter(p, o), log, o.node, if o.torn.Some? then o.torn.value.at else Max(applied, x))
            && o.node == m.(ledger := o.node.ledger)
            && (o.torn.Some? ==> o.torn.value.at == x >= applied && TornThere(cfg, p, log, o.torn.value))
  {
    var o := CrashAt(cfg, m, log[x], j);
    if o.torn.Some? {
      if x < applied {
        StaleEntry(cfg, p, log, x, applied);
        assert false;
      }
      OneMoreMark(cfg, p, log, x, o.torn.value);
      MarkedWith(p, o.torn.value);
    }
  }

  lemma PanicAtKeeps(cfg: Config, p: Past, log: seq<Entry>, m: Node, applied: nat, x: nat)
    requires Setting(cfg, log) && x < |log| && LedgerInv(cfg, p, log, m, Max(applied, x))
    requires ApplyEntry(cfg, m, log[x]) == None
    ensures var o := PanicAt(cfg, m, log[x]);
            && o.Halted? && o.at == x >= applied && LedgerInv(cfg, PastAfter(p, o), log, o.node, x)
            && o.node == m.(ledger := o.node.ledger)
            && StopsAt(cfg, p, log, o)
  {
    var e := log[x];
    ApplyEntryReplays(cfg, m, e);
    if x < applied {
      StaleEntry(cfg, p, log, x, applied);
      assert false;
    }
    StoryGoesOn(cfg, p, log, x);
    CrashKeeps(cfg, p, log, m, applied, x, |e.kind.block.txs|);
  }

  /** A panic in entries lo..hi: everything in front of the entry it falls on has been committed. */
  lemma {:induction false} PanicKeeps(cfg: Config, p: Past, log: seq<Entry>, n: Node, applied: nat, lo: nat, hi: nat)
    requires Setting(cfg, log) && lo <= hi <= |log| && lo <= applied
    requires LedgerInv(cfg, p, log, n, applied) && CommitEntries(cfg, n, Stretch(log, lo, hi)) == None
    ensures var o := Panicked(cfg, n, Stretch(log, lo, hi));
            && o.Halted? && applied <= o.at < hi && LedgerInv(cfg, PastAfter(p, o), log, o.node, o.at)
            && n.committedIndex <= o.node.committedIndex
            && o.node == n.(ledger := o.node.ledger, lastHeight := o.node.lastHeight,
                            committedIndex := o.node.committedIndex)
            && StopsAt(cfg, p, log, o)
    decreases hi
  {
    assert Stretch(log, lo, hi)[..hi - lo - 1] == Stretch(log, lo, hi - 1);
    if CommitEntries(cfg, n, Stretch(log, lo, hi - 1)).Some? {
      LastPanics(cfg, p, log, n, applied, lo, hi);
    } else {
      PanicKeeps(cfg, p, log, n, applied, lo, hi - 1);
    }
  }

  lemma LastPanics(cfg: Config, p: Past, log: seq<Entry>, n: Node, applied: nat, lo: nat, hi: nat)
    requires Setting(cfg, log) && lo < hi <= |log| && lo <= applied && LedgerInv(cfg, p, log, n, applied)
    requires CommitEntries(cfg, n, Stretch(log, lo, hi - 1)).Some?
    requires CommitEntries(cfg, n, Stretch(log, lo, hi)) == None
    ensures var o := PanicAt(cfg, CommitEntries(cfg, n, Stretch(log, lo, hi - 1)).value, log[hi - 1]);
            && o.Halted? && o.at == hi - 1 && applied <= o.at && LedgerInv(cfg, PastAfter(p, o), log, o.node, o.at)
            && n.committedIndex <= o.node.committedIndex
            && o.node == n.(ledger := o.node.ledger, lastHeight := o.node.lastHeight,
                            committedIndex := o.node.committedIndex)
            && StopsAt(cfg, p, log, o)
  {
    assert Stretch(log, lo, hi)[..hi - lo - 1] == Stretch(log, lo, hi - 1);
    CommitSlice(cfg, p, log, n, applied, lo, hi - 1);
    PanicAtKeeps(cfg, p, log, CommitEntries(cfg, n, Stretch(log, lo, hi - 1)).value, applied, hi - 1);
  }

  lemma StretchAt(log: seq<Entry>, lo: nat, hi: nat, i: nat)
    requires lo <= hi <= |log| && i < hi - lo
    ensures Stretch(log, lo, hi)[i] == log[lo + i]
  {
    StretchIsSlice(log, lo, hi);
  }

  /** Committing entries lo..hi of the log up to a crash. */
  ghost function CutOff(cfg: Config, n: Node, log: seq<Entry>, lo: nat, hi: nat, c: Crash): Outcome
    requires lo <= hi <= |log|
  {
    var x := if c.entries < hi - lo then lo + c.entries else hi;
    CutTo(cfg, n, Stretch(log, lo, x), if x < hi then Some(log[x]) else None, c.flushed)
  }

  lemma CutOffWith(cfg: Config, n: Node, log: seq<Entry>, es: seq<Entry>, front: seq<Entry>, lo: nat, hi: nat, c: Crash)
    requires lo <= hi <= |log| && |es| == hi - lo && front == Prefix(es, c.entries)
    requires front == Stretch(log, lo, if c.entries < hi - lo then lo + c.entries else hi)
    requires c.entries < |es| ==> es[c.entries] == log[lo + c.entries]
    ensures CommitCut(cfg, n, es, c) == CutOff(cfg, n, log, lo, hi, c)
  {
  }

  lemma CutOffIs(cfg: Config, n: Node, log: seq<Entry>, es: seq<Entry>, lo: nat, hi: nat, c: Crash)
    requires lo <= hi <= |log| && es == log[lo..hi]
    ensures CommitCut(cfg, n, es, c) == CutOff(cfg, n, log, lo, hi, c)
  {
    var x := if c.entries < hi - lo then lo + c.entries else hi;
    StretchIsSlice(es, 0, x - lo);
    StretchIsSlice(log, lo, x);
    assert es[..x - lo] == log[lo..x];
    CutOffWith(cfg, n, log, es, Prefix(es, c.entries), lo, hi, c);
  }

  lemma CutKeeps(cfg: Config, p: Past, log: seq<Entry>, n: Node, applied: nat, t: nat, c: Crash)
    requires Setting(cfg, log) && LedgerInv(cfg, p, log, n, applied) && n.committedIndex <= t <= |log|
    ensures Recovered(cfg, p, log, applied, n, CommitCut(cfg, n, Stretch(log, n.committedIndex, t), c))
  {
    StretchIsSlice(log, n.committedIndex, t);
    CutOffIs(cfg, n, log, Stretch(log, n.committedIndex, t), n.committedIndex, t, c);
    CutOffKeeps(cfg, p, log, n, applied, t, c);
  }

  lemma CutOffKeeps(cfg: Config, p: Past, log: seq<Entry>, n: Node, applied: nat, t: nat, c: Crash)
    requires Setting(cfg, log) && LedgerInv(cfg, p, log, n, applied) && n.committedIndex <= t <= |log|
    ensures Recovered(cfg, p, log, applied, n, CutOff(cfg, n, log, n.committedIndex, t, c))
  {
    var x := if c.entries < t - n.committedIndex then n.committedIndex + c.entries else t;
    OnwardKeeps(cfg, p, log, n, applied, x);
    var r := CommitEntries(cfg, n, Stretch(log, n.committedIndex, x));
    if r.Some? && x < t {
      CommitSlice(cfg, p, log, n, applied, n.committedIndex, x);
      CrashRecovered(cfg, p, log, n, r.value, applied, x, c.flushed);
    }
  }

  lemma CrashRecovered(cfg: Config, p: Past, log: seq<Entry>, n: Node, m: Node, applied: nat, x: nat, j: nat)
    requires Setting(cfg, log) && x < |log| && LedgerInv(cfg, p, log, m, Max(applied, x))
    requires Recovered(cfg, p, log, applied, n, Running(m))
    ensures Recovered(cfg, p, log, applied, n, CrashAt(cfg, m, log[x], j))
  {
    CrashKeeps(cfg, p, log, m, applied, x, j);
  }

  lemma RecoveredFurther(cfg: Config, p: Past, log: seq<Entry>, applied: nat, n: Node, m: Node, o: Outcome)
    requires Recovered(cfg, p, log, applied, n, Running(m))
    requires Recovered(cfg, p, log, Max(applied, m.committedIndex), m, o)
    ensures Recovered(cfg, p, log, applied, n, o)
  {
  }

  lemma AnswerKeeps(cfg: Config, p: Past, log: seq<Entry>, n: Node, applied: nat, r: Reply)
    requires Setting(cfg, log) && LedgerInv(cfg, p, log, n, applied)
    requires r.Reply? || r.Cut? ==> GenuineOrEmpty(cfg, log, r.snap)
    ensures match Answer(cfg, n, r)
            case Again(m) => Recovered(cfg, p, log, applied, n, Running(m))
            case Leave(o) => Recovered(cfg, p, log, applied, n, o)
  {
    if r.Reply? || r.Cut? {
      MissingIs(cfg, log, r.snap, n.committedIndex);
      if Missing(n.committedIndex, r.snap).Some? {
        if r.Cut? {
          CutKeeps(cfg, p, log, n, applied, r.snap.index, r.crash);
        } else {
          OnwardKeeps(cfg, p, log, n, applied, r.snap.index);
          TakeOverKeeps(cfg, p, log, n, applied, r.snap);
        }
      }
    }
  }

  lemma {:induction false} ChaseKeeps(cfg: Config, p: Past, log: seq<Entry>, n: Node, applied: nat,
                                      target: nat, replies: seq<Reply>)
    requires Setting(cfg, log) && GenuineReplies(cfg, log, replies)
    requires LedgerInv(cfg, p, log, n, applied)
    ensures Recovered(cfg, p, log, applied, n, Chase(cfg, n, target, replies))
    decreases |replies|
  {
    if replies != [] {
      AnswerKeeps(cfg, p, log, n, applied, replies[0]);
      var t := Answer(cfg, n, replies[0]);
      if t.Again? {
        ChaseKeeps(cfg, p, log, t.node, Max(applied, t.node.committedIndex), target, replies[1..]);
        RecoveredFurther(cfg, p, log, applied, n, t.node, Chase(cfg, t.node, target, replies[1..]));
      }
    }
  }

  lemma FinishKeeps(cfg: Config, p: Past, log: seq<Entry>, n: Node, applied: nat, s: Snapshot, cut: Option<Crash>)
    requires Setting(cfg, log) && GenuineOrEmpty(cfg, log, s)
    requires LedgerInv(cfg, p, log, n, applied)
    ensures Recovered(cfg, p, log, applied, n, FinishRecovery(cfg, n, s, cut))
  {
    MissingIs(cfg, log, s, n.committedIndex);
    if Missing(n.committedIndex, s).Some? {
      OnwardKeeps(cfg, p, log, n, applied, s.index);
      TakeOverKeeps(cfg, p, log, n, applied, s);
      if cut.Some? {
        CutKeeps(cfg, p, log, n, applied, s.index, cut.value);
      }
    }
  }

  ghost predicate Received(cfg: Config, p: Past, log: seq<Entry>, applied: nat, n: Node, o: Outcome) {
    && applied <= Reached(applied, o) && LedgerInv(cfg, PastAfter(p, o), log, o.node, Reached(applied, o))
    && o.node.walCommit == n.walCommit && o.node.storageCommit == n.storageCommit
    && StopsAt(cfg, p, log, o)
  }

  lemma ChaseAndFinishKeeps(cfg: Config, p: Past, log: seq<Entry>, n: Node, applied: nat, s: Snapshot,
                            replies: seq<Reply>, cut: Option<Crash>)
    requires Setting(cfg, log) && GenuineOrEmpty(cfg, log, s) && GenuineReplies(cfg, log, replies)
    requires LedgerInv(cfg, p, log, n, applied)
    ensures Received(cfg, p, log, applied, n, ChaseAndFinish(cfg, n, s, replies, cut))
  {
    ChaseKeeps(cfg, p, log, n, applied, s.index, replies);
    var o := Chase(cfg, n, s.index, replies);
    if o.Running? {
      FinishKeeps(cfg, p, log, o.node, Max(applied, o.node.committedIndex), s, cut);
    }
  }

  lemma RecoverKeeps(cfg: Config, p: Past, log: seq<Entry>, n: Node, applied: nat, s: Snapshot,
                     replies: seq<Reply>, cut: Option<Crash>)
    requires Setting(cfg, log) && GenuineOrEmpty(cfg, log, s) && GenuineReplies(cfg, log, replies)
    requires LedgerInv(cfg, p, log, n, applied) && n.storageCommit <= applied
    ensures Received(cfg, p, log, applied, n, Recover(cfg, n, s, replies, cut))
  {
    var n0 := n.(committedIndex := n.storageCommit);
    ChaseAndFinishKeeps(cfg, p, log, n0, applied, s, replies, cut);
    FinishKeeps(cfg, p, log, n0, applied, s, cut);
  }

  lemma ReceiveKeeps(cfg: Config, p: Past, log: seq<Entry>, n: Node, applied: nat, rd: Ready, w: World)
    requires Setting(cfg, log)
    requires (rd.snapshot.Some? ==> GenuineOrEmpty(cfg, log, rd.snapshot.value)) && GenuineReplies(cfg, log, w.replies)
    requires LedgerInv(cfg, p, log, n, applied) && n.storageCommit <= applied
    ensures Received(cfg, p, log, applied, n, Receive(cfg, n, rd, w))
  {
    if rd.snapshot.Some? {
      RecoverKeeps(cfg, p, log, n, applied, rd.snapshot.value, w.replies, w.cut);
    }
  }

  lemma MaybeSnapshotFrame(cfg: Config, log: seq<Entry>, n: Node, saved: bool)
    requires cfg.snapCount > 0
    ensures var m := MaybeSnapshot(cfg, log, n, saved);
            m == n.(disk := m.disk, snapshotIndex := m.snapshotIndex, firstIndex := m.firstIndex)
  {
  }

  // ---------------------------------------------------------------- runs

  /** Where a node is, how much of the log it has been handed, and what other marks its ledger has, but
      for one the outcome itself has just left. */
  datatype Stage = Stage(outcome: Outcome, applied: nat, marks: seq<Mark>)

  /** A Ready with entries lo..hi of the log, one broken off by a crash among them or in the middle
      of committing a block, a crash between two Readys, a restart - also after a panic -, or a local
      change between two Readys. */
  datatype Step =
    | Handle(rd: Ready, w: World, lo: nat, hi: nat)
    | Interrupt(rd: Ready, w: World, lo: nat, hi: nat, crash: Crash)
    | PowerOff
    | Boot
    | Change(op: LocalOp)

  /** What raft promises of the entries handed over after a snapshot was received with outcome o:
      no gap, and a hard state that is not ahead of them. */
  ghost predicate Batch(log: seq<Entry>, applied: nat, o: Outcome, rd: Ready, lo: nat, hi: nat) {
    && lo <= hi <= |log| && rd.committed == Stretch(log, lo, hi)
    && lo <= Reached(applied, o)
    && (rd.hard.Some? ==> rd.hard.value <= Max(Reached(applied, o), hi))
  }

  /** And of snapshots: they are of this very log. */
  ghost predicate Delivery(cfg: Config, log: seq<Entry>, n: Node, applied: nat, rd: Ready, w: World, lo: nat, hi: nat)
    requires cfg.snapCount > 0
  {
    && (rd.snapshot.Some? ==> GenuineOrEmpty(cfg, log, rd.snapshot.value))
    && GenuineReplies(cfg, log, w.replies)
    && Batch(log, applied, Receive(cfg, n, rd, w), rd, lo, hi)
  }

  /** How much of the log a node has been handed once entries up to hi follow outcome o, and it ends
      with outcome end. */
  function Handed(applied: nat, o: Outcome, hi: nat, end: Outcome): nat {
    if end.Halted? then end.at else if o.Running? then Max(Reached(applied, o), hi) else Reached(applied, o)
  }

  ghost predicate Allowed(cfg: Config, log: seq<Entry>, st: Stage, step: Step)
    requires cfg.snapCount > 0
  {
    match step
    case Handle(rd, w, lo, hi) => st.outcome.Running? && Delivery(cfg, log, st.outcome.node, st.applied, rd, w, lo, hi)
    case Interrupt(rd, w, lo, hi, c) =>
      st.outcome.Running? && Delivery(cfg, log, st.outcome.node, st.applied, rd, w, lo, hi) && c.entries <= hi - lo
    case PowerOff => st.outcome.Running?
    case Boot => !st.outcome.Running?
    case Change(_) => st.outcome.Running?
  }

  /** How a step ends. */
  ghost function Result(cfg: Config, log: seq<Entry>, st: Stage, step: Step): Outcome
    requires cfg.snapCount > 0 && Allowed(cfg, log, st, step)
  {
    match step
    case Handle(rd, w, _, _) => HandleReady(cfg, log, st.outcome.node, rd, w)
    case Interrupt(rd, w, _, _, c) => CrashInReady(cfg, st.outcome.node, rd, w, c)
    case PowerOff => Down(st.outcome.node, None)
    case Boot => Restart(st.outcome.node)
    case Change(op) => Running(st.outcome.node.(ledger := LocalChange(st.outcome.node.ledger, op)))
  }

  ghost function After(cfg: Config, log: seq<Entry>, st: Stage, step: Step): Stage
    requires cfg.snapCount > 0 && Allowed(cfg, log, st, step)
  {
    var o := Result(cfg, log, st, step);
    var applied :=
      match step
      case Handle(rd, w, lo, hi) => Handed(st.applied, Receive(cfg, st.outcome.node, rd, w), hi, o)
      case Interrupt(rd, w, lo, hi, c) => Handed(st.applied, Receive(cfg, st.outcome.node, rd, w), lo + c.entries, o)
      case _ => st.applied;
    Stage(o, applied, MarksAfter(st.marks, st.outcome) + if step.Change? then [Local(st.applied, step.op)] else [])
  }

  /** The ledger, in memory or on disk, is one replay of the log as far as it was handed over, with the
      marks that crashes and local changes have left; the persisted commit index is not ahead of it;
      and blocks panic only where the log cannot be replayed so. */
  ghost predicate SafeFrom(cfg: Config, p: Past, log: seq<Entry>, applied: nat, o: Outcome) {
    && applied <= |log| && Story(cfg, PastAfter(p, o), log, applied) == Some(o.node.ledger)
    && MarkedUpTo(PastAfter(p, o), applied) && o.node.walCommit <= applied
    && (o.Running? ==> LedgerInv(cfg, p, log, o.node, applied) && o.node.storageCommit <= applied)
    && (o.Halted? ==> o.at == applied) && StopsAt(cfg, p, log, o)
  }

  ghost predicate Safe(cfg: Config, l0: State, log: seq<Entry>, st: Stage) {
    SafeFrom(cfg, Past(l0, st.marks), log, st.applied, st.outcome)
  }

  lemma FinalEntries(cfg: Config, p: Past, log: seq<Entry>, n: Node, applied: nat, lo: nat, hi: nat)
    requires Setting(cfg, log) && lo <= hi <= |log| && lo <= applied
    requires LedgerInv(cfg, p, log, n, applied) && n.walCommit <= applied
    ensures match CommitEntries(cfg, n, Stretch(log, lo, hi))
            case None =>
              var o := Panicked(cfg, n, Stretch(log, lo, hi));
              o.Halted? && SafeFrom(cfg, p, log, o.at, o)
            case Some(m) =>
              LedgerInv(cfg, p, log, m, Max(applied, hi))
              && m == n.(ledger := m.ledger, lastHeight := m.lastHeight, committedIndex := m.committedIndex)
  {
    CommitSlice(cfg, p, log, n, applied, lo, hi);
    if CommitEntries(cfg, n, Stretch(log, lo, hi)).None? {
      PanicKeeps(cfg, p, log, n, applied, lo, hi);
    }
  }

  lemma ProceedKeeps(cfg: Config, p: Past, log: seq<Entry>, n: Node, applied: nat, o: Outcome, rd: Ready, w: World,
                     lo: nat, hi: nat)
    requires Setting(cfg, log) && Received(cfg, p, log, applied, n, o) && Batch(log, applied, o, rd, lo, hi)
    requires n.walCommit <= applied && n.storageCommit <= applied
    ensures var r := Proceed(cfg, log, o, rd, w); SafeFrom(cfg, p, log, Handed(applied, o, hi, r), r)
  {
    var r := Proceed(cfg, log, o, rd, w);
    if o.Running? {
      FinalEntries(cfg, p, log, o.node, Reached(applied, o), lo, hi);
      var m := CommitEntries(cfg, o.node, rd.committed);
      if m.Some? {
        MaybeSnapshotFrame(cfg, log, SaveHardState(m.value, rd.hard), w.savedSnapshot);
      }
    }
  }

  lemma BreakOffKeeps(cfg: Config, p: Past, log: seq<Entry>, n: Node, applied: nat, o: Outcome, rd: Ready,
                      lo: nat, hi: nat, c: Crash)
    requires Setting(cfg, log) && Received(cfg, p, log, applied, n, o) && Batch(log, applied, o, rd, lo, hi)
    requires n.walCommit <= applied && n.storageCommit <= applied && c.entries <= hi - lo
    ensures var r := BreakOff(cfg, o, rd, c); SafeFrom(cfg, p, log, Handed(applied, o, lo + c.entries, r), r)
  {
    if o.Running? {
      StretchIsSlice(log, lo, hi);
      CutOffIs(cfg, o.node, log, rd.committed, lo, hi, c);
      CutOffSafe(cfg, p, log, o.node, Reached(applied, o), lo, hi, c);
    }
  }

  lemma CutOffSafe(cfg: Config, p: Past, log: seq<Entry>, n: Node, applied: nat, lo: nat, hi: nat, c: Crash)
    requires Setting(cfg, log) && LedgerInv(cfg, p, log, n, applied)
    requires n.walCommit <= applied && n.storageCommit <= applied
    requires lo <= hi <= |log| && lo <= applied && c.entries <= hi - lo
    ensures var r := CutOff(cfg, n, log, lo, hi, c);
            SafeFrom(cfg, p, log, if r.Halted? then r.at else Max(applied, lo + c.entries), r)
  {
    var x := lo + c.entries;
    FinalEntries(cfg, p, log, n, applied, lo, x);
    var m := CommitEntries(cfg, n, Stretch(log, lo, x));
    if m.Some? && x < hi {
      CrashSafe(cfg, p, log, m.value, applied, x, c.flushed);
    }
  }

  lemma CrashSafe(cfg: Config, p: Past, log: seq<Entry>, m: Node, applied: nat, x: nat, j: nat)
    requires Setting(cfg, log) && x < |log| && LedgerInv(cfg, p, log, m, Max(applied, x)) && m.walCommit <= applied
    ensures var o := CrashAt(cfg, m, log[x], j); o.Down? && SafeFrom(cfg, p, log, Max(applied, x), o)
  {
    CrashKeeps(cfg, p, log, m, applied, x, j);
  }

  lemma StepKeeps(cfg: Config, l0: State, log: seq<Entry>, st: Stage, step: Step)
    requires Setting(cfg, log) && Safe(cfg, l0, log, st) && Allowed(cfg, log, st, step)
    ensures Safe(cfg, l0, log, After(cfg, log, st, step))
  {
    match step
    case Handle(_, _, _, _) => HandleKeeps(cfg, l0, log, st, step);
    case Interrupt(_, _, _, _, _) => InterruptKeeps(cfg, l0, log, st, step);
    case Change(_) => ChangeKeeps(cfg, l0, log, st, step);
    case _ => RestKeeps(cfg, l0, log, st, step);
  }

  /** How much of the log and which marks a step leaves. */
  lemma AfterRunning(cfg: Config, log: seq<Entry>, st: Stage, step: Step)
    requires cfg.snapCount > 0 && Allowed(cfg, log, st, step) && st.outcome.Running? && !step.Change?
    ensures After(cfg, log, st, step).marks == st.marks
    ensures After(cfg, log, st, step).outcome == Result(cfg, log, st, step)
  {
  }

  lemma HandleKeeps(cfg: Config, l0: State, log: seq<Entry>, st: Stage, step: Step)
    requires Setting(cfg, log) && Safe(cfg, l0, log, st) && Allowed(cfg, log, st, step) && step.Handle?
    ensures Safe(cfg, l0, log, After(cfg, log, st, step))
  {
    var p, n := Past(l0, st.marks), st.outcome.node;
    var o := Receive(cfg, n, step.rd, step.w);
    ReceiveKeeps(cfg, p, log, n, st.applied, step.rd, step.w);
    ProceedKeeps(cfg, p, log, n, st.applied, o, step.rd, step.w, step.lo, step.hi);
    AfterRunning(cfg, log, st, step);
  }

  lemma InterruptKeeps(cfg: Config, l0: State, log: seq<Entry>, st: Stage, step: Step)
    requires Setting(cfg, log) && Safe(cfg, l0, log, st) && Allowed(cfg, log, st, step) && step.Interrupt?
    ensures Safe(cfg, l0, log, After(cfg, log, st, step))
  {
    var p, n := Past(l0, st.marks), st.outcome.node;
    var o := Receive(cfg, n, step.rd, step.w);
    ReceiveKeeps(cfg, p, log, n, st.applied, step.rd, step.w);
    BreakOffKeeps(cfg, p, log, n, st.applied, o, step.rd, step.lo, step.hi, step.crash);
    AfterRunning(cfg, log, st, step);
  }

  lemma ChangeKeeps(cfg: Config, l0: State, log: seq<Entry>, st: Stage, step: Step)
    requires Setting(cfg, log) && Safe(cfg, l0, log, st) && Allowed(cfg, log, st, step) && step.Change?
    ensures Safe(cfg, l0, log, After(cfg, log, st, step))
  {
    LocalKeeps(cfg, Past(l0, st.marks), log, st.outcome.node, st.applied, step.op);
  }

  /** A restart keeps what is on disk, with the mark its end has left. */
  lemma RestKeeps(cfg: Config, l0: State, log: seq<Entry>, st: Stage, step: Step)
    requires Setting(cfg, log) && Safe(cfg, l0, log, st) && Allowed(cfg, log, st, step)
    requires step.PowerOff? || step.Boot?
    ensures Safe(cfg, l0, log, After(cfg, log, st, step))
  {
    assert MarksAfter(st.marks, st.outcome) + [] == MarksAfter(st.marks, st.outcome);
  }

  lemma LocalKeeps(cfg: Config, p: Past, log: seq<Entry>, n: Node, applied: nat, op: LocalOp)
    requires SafeFrom(cfg, p, log, applied, Running(n))
    ensures SafeFrom(cfg, p.(marks := p.marks + [Local(applied, op)]), log, applied,
                     Running(n.(ledger := LocalChange(n.ledger, op))))
  {
    var t := Local(applied, op);
    OneMoreMark(cfg, p, log, applied, t);
    MarkedWith(p, t);
  }

  ghost predicate IsRun(cfg: Config, log: seq<Entry>, st: Stage, steps: seq<Step>)
    requires cfg.snapCount > 0
    decreases |steps|
  {
    steps != [] ==> Allowed(cfg, log, st, steps[0]) && IsRun(cfg, log, After(cfg, log, st, steps[0]), steps[1..])
  }

  ghost function RunFrom(cfg: Config, log: seq<Entry>, st: Stage, steps: seq<Step>): Stage
    requires cfg.snapCount > 0 && IsRun(cfg, log, st, steps)
    decreases |steps|
  {
    if steps == [] then st else RunFrom(cfg, log, After(cfg, log, st, steps[0]), steps[1..])
  }

  lemma {:induction false} RunsAreSafe(cfg: Config, l0: State, log: seq<Entry>, st: Stage, steps: seq<Step>)
    requires Setting(cfg, log) && Safe(cfg, l0, log, st) && IsRun(cfg, log, st, steps)
    ensures Safe(cfg, l0, log, RunFrom(cfg, log, st, steps))
    decreases |steps|
  {
    if steps != [] {
      StepKeeps(cfg, l0, log, st, steps[0]);
      RunsAreSafe(cfg, l0, log, After(cfg, log, st, steps[0]), steps[1..]);
    }
  }

  /** A node that has never run, over a ledger l0. */
  function Fresh(l0: State): Stage {
    Stage(Running(Node(0, 0, l0.height, 0, 1, l0, 0, [])), 0, [])
  }

  // ---------------------------------------------------------------- blocks half committed

  /** Committing e again over its torn ledger comes out as it would have at first. */
  ghost predicate Mends(cfg: Config, l: State, e: Entry, j: nat) {
    e.kind.BlockData? && ReplayEntry(cfg, cfg.torn(l, e.kind.block, j), e) == ReplayEntry(cfg, l, e)
  }

  /** A tear leaves its mark in front of its block; behind it the story is as without the tear if and
      only if committing the block again mends it. */
  lemma TearIff(cfg: Config, p: Past, log: seq<Entry>, t: Mark)
    requires t.Tear? && t.at < |log| && MarkedUpTo(p, t.at) && log[t.at].kind.BlockData?
    requires Story(cfg, p, log, t.at).Some?
    ensures var q, l := p.(marks := p.marks + [t]), Story(cfg, p, log, t.at).value;
            && Story(cfg, q, log, t.at) == Some(cfg.torn(l, log[t.at].kind.block, t.flushed))
            && (Story(cfg, q, log, t.at + 1) == Story(cfg, p, log, t.at + 1) <==> Mends(cfg, l, log[t.at], t.flushed))
  {
    var q := p.(marks := p.marks + [t]);
    MarkedWith(p, t);
    OneMoreMark(cfg, p, log, t.at, t);
    StoryGoesOn(cfg, p, log, t.at);
    StoryGoesOn(cfg, q, log, t.at);
  }

  /** Two stories that meet behind the last mark of both go on alike. */
  lemma {:induction false} SameOnward(cfg: Config, p: Past, q: Past, log: seq<Entry>, d: nat, k: nat)
    requires d <= k <= |log| && MarkedUpTo(p, d) && MarkedUpTo(q, d) && Story(cfg, p, log, d) == Story(cfg, q, log, d)
    ensures Story(cfg, p, log, k) == Story(cfg, q, log, k)
  {
    if d < k {
      SameOnward(cfg, p, q, log, d, k - 1);
      MarkedLater(p, d, k - 1);
      MarkedLater(q, d, k - 1);
      StoryGoesOn(cfg, p, log, k - 1);
      StoryGoesOn(cfg, q, log, k - 1);
    }
  }

  lemma MendedOnward(cfg: Config, p: Past, q: Past, log: seq<Entry>, t: Mark, k: nat)
    requires q == p.(marks := p.marks + [t])
    requires t.Tear? && t.at < |log| && MarkedUpTo(p, t.at) && t.at < k <= |log|
    requires Story(cfg, p, log, t.at).Some? && Mends(cfg, Story(cfg, p, log, t.at).value, log[t.at], t.flushed)
    ensures Story(cfg, q, log, k) == Story(cfg, p, log, k)
  {
    MendedNext(cfg, p, q, log, t);
    SameOnward(cfg, p, q, log, t.at + 1, k);
  }

  lemma MendedNext(cfg: Config, p: Past, q: Past, log: seq<Entry>, t: Mark)
    requires q == p.(marks := p.marks + [t])
    requires t.Tear? && t.at < |log| && MarkedUpTo(p, t.at)
    requires Story(cfg, p, log, t.at).Some? && Mends(cfg, Story(cfg, p, log, t.at).value, log[t.at], t.flushed)
    ensures MarkedUpTo(p, t.at + 1) && MarkedUpTo(q, t.at + 1)
    ensures Story(cfg, q, log, t.at + 1) == Story(cfg, p, log, t.at + 1)
  {
    TearIff(cfg, p, log, t);
    MarkedWith(p, t);
    MarkedLater(p, t.at, t.at + 1);
    MarkedLater(q, t.at, t.at + 1);
  }

  /** Every tear of the past mends, on the ledger it was made in. */
  ghost predicate AllMend(cfg: Config, p: Past, log: seq<Entry>)
    decreases |p.marks|
  {
    p.marks == [] ||
    var q, t := p.(marks := p.marks[..|p.marks| - 1]), p.marks[|p.marks| - 1];
    && AllMend(cfg, q, log)
    && t.Tear? && t.at < |log| && Story(cfg, q, log, t.at).Some?
    && Mends(cfg, Story(cfg, q, log, t.at).value, log[t.at], t.flushed)
  }

  /** Then the story is a plain replay wherever no block is half committed. */
  lemma {:induction false} MendedIsReplay(cfg: Config, p: Past, log: seq<Entry>, k: nat)
    requires k <= |log| && MarkedUpTo(p, |log|) && AllMend(cfg, p, log) && NoneAt(p.marks, k)
    ensures Story(cfg, p, log, k) == Replay(cfg, p.l0, log, k)
    decreases |p.marks|
  {
    if p.marks == [] {
      NothingMarked(cfg, p.l0, log, k);
      assert p == Past(p.l0, []);
    } else {
      var q, t := p.(marks := p.marks[..|p.marks| - 1]), p.marks[|p.marks| - 1];
      assert q.marks + [t] == p.marks && p == q.(marks := q.marks + [t]);
      assert forall i :: 0 <= i < |q.marks| ==> q.marks[i] == p.marks[i];
      MarkedLater(q, t.at, |log|);
      MendedIsReplay(cfg, q, log, k);
      if k < t.at {
        OneMoreMark(cfg, q, log, k, t);
      } else {
        MendedOnward(cfg, q, p, log, t, k);
      }
    }
  }

  lemma {:induction false} NothingMarked(cfg: Config, l0: State, log: seq<Entry>, k: nat)
    requires k <= |log|
    ensures Story(cfg, Past(l0, []), log, k) == Replay(cfg, l0, log, k)
  {
    if k > 0 {
      NothingMarked(cfg, l0, log, k - 1);
    }
  }

  /** Torn or not, the same blocks are applied. */
  lemma {:induction false} SameBlocks(cfg: Config, p: Past, log: seq<Entry>, k: nat)
    requires CommitsInOrder(cfg) && k <= |log| && Story(cfg, p, log, k).Some? && Replay(cfg, p.l0, log, k).Some?
    ensures Story(cfg, p, log, k).value.height == Replay(cfg, p.l0, log, k).value.height
    ensures AppliedBlocks(cfg, p, log, k) == AppliedBlocks(cfg, Past(p.l0, []), log, k)
  {
    var r := Past(p.l0, []);
    NothingMarked(cfg, p.l0, log, k);
    HeightsContiguous(cfg, p, log, k);
    HeightsContiguous(cfg, r, log, k);
    if k > 0 {
      StoryStep(cfg, p, log, k - 1);
      StoryStep(cfg, r, log, k - 1);
      NothingMarked(cfg, p.l0, log, k - 1);
      SameBlocks(cfg, p, log, k - 1);
    }
  }

  // ---------------------------------------------------------------- the books of a node of this chain

  function AllBooked(l0: State, bs: seq<Block>, minaddr: bytes): State {
    if bs == [] then l0 else Booked(AllBooked(l0, bs[..|bs| - 1], minaddr), bs[|bs| - 1], minaddr)
  }

  /** Height, balances and every account's nonce; not the locks, nor which accounts have a nonce record. */
  ghost predicate SameBooks(l: State, l1: State) {
    l.height == l1.height && l.balances == l1.balances && SameNonces(l.nonces, l1.nonces)
  }

  ghost predicate SameNonces(m: Amounts, m1: Amounts) {
    forall a :: NonceOf(m, a) == NonceOf(m1, a)
  }

  lemma {:induction false} NoncesApart(m: Amounts, m1: Amounts, txs: seq<Transaction>)
    requires SameNonces(m, m1)
    ensures SameNonces(ApplyNonces(m, txs), ApplyNonces(m1, txs))
  {
    if txs != [] {
      var t, init := txs[|txs| - 1], txs[..|txs| - 1];
      NoncesApart(m, m1, init);
      var r, r1 := ApplyNonces(m, init), ApplyNonces(m1, init);
      assert forall a :: NonceOf(r, a) == NonceOf(r1, a);
      forall a ensures NonceOf(ApplyNonces(m, txs), a) == NonceOf(ApplyNonces(m1, txs), a) {
        assert NonceOf(ApplyNonces(m, txs), a) == if a == t.from then Add64(t.nonce, 1) else NonceOf(r, a);
        assert NonceOf(ApplyNonces(m1, txs), a) == if a == t.from then Add64(t.nonce, 1) else NonceOf(r1, a);
      }
    }
  }

  lemma BookedAlike(l: State, l1: State, b: Block, minaddr: bytes)
    requires SameBooks(l, l1)
    ensures SameBooks(Booked(l, b, minaddr), Booked(l1, b, minaddr))
  {
    NoncesApart(l.nonces, l1.nonces, b.txs);
  }

  lemma ChangeBooks(l: State, op: LocalOp)
    ensures SameBooks(LocalChange(l, op), l) && LocalChange(l, op).tokens == l.tokens
    ensures op.Asking? ==> LocalChange(l, op).locks == l.locks && op.addr in LocalChange(l, op).nonces
  {
  }

  lemma OneMarkBooks(snapCount: nat, accepts: (State, Block) -> bool, minaddr: bytes,
                     l: State, log: seq<Entry>, k: nat, t: Mark)
    requires k <= |log|
    ensures var r := MarkedOnce(NodeConfig(snapCount, accepts, minaddr), l, log, k, t);
            && SameBooks(r, l)
            && (t.Local? ==> r.tokens == l.tokens)
            && (t.Tear? || t.op.Asking? ==> r.locks == l.locks)
  {
    if t.Local? {
      ChangeBooks(l, t.op);
    }
  }

  lemma TearAlike(snapCount: nat, accepts: (State, Block) -> bool, minaddr: bytes,
                  l: State, l1: State, log: seq<Entry>, k: nat, t: Mark)
    requires k <= |log| && t.Tear? && Alike(l, l1)
    ensures var cfg := NodeConfig(snapCount, accepts, minaddr);
            Alike(MarkedOnce(cfg, l, log, k, t), MarkedOnce(cfg, l1, log, k, t))
  {
  }

  lemma {:induction false} MarkedBooks(snapCount: nat, accepts: (State, Block) -> bool, minaddr: bytes,
                                     l: State, log: seq<Entry>, k: nat, marks: seq<Mark>)
    requires k <= |log|
    ensures SameBooks(Marked(NodeConfig(snapCount, accepts, minaddr), l, log, k, marks), l)
  {
    if marks != [] {
      var cfg, t := NodeConfig(snapCount, accepts, minaddr), marks[|marks| - 1];
      MarkedBooks(snapCount, accepts, minaddr, l, log, k, marks[..|marks| - 1]);
      OneMarkBooks(snapCount, accepts, minaddr, Marked(cfg, l, log, k, marks[..|marks| - 1]), log, k, t);
    }
  }

  lemma EntryBooks(snapCount: nat, accepts: (State, Block) -> bool, minaddr: bytes, l: State, l1: State, e: Entry)
    requires SameBooks(l, l1) && ReplayEntry(NodeConfig(snapCount, accepts, minaddr), l, e).Some?
    ensures var r := ReplayEntry(NodeConfig(snapCount, accepts, minaddr), l, e).value;
            && SameBooks(r, if Stale(l, e) then l1 else Booked(l1, e.kind.block, minaddr))
            && r.locks == l.locks
  {
    if !Stale(l, e) {
      BookedAlike(l, l1, e.kind.block, minaddr);
    }
  }

  /** Torn or not, locked or not: height, balances and nonces are those of its blocks, each booked once. */
  lemma {:induction false} BookedOnce(snapCount: nat, accepts: (State, Block) -> bool, minaddr: bytes,
                                      p: Past, log: seq<Entry>, k: nat)
    requires k <= |log| && Story(NodeConfig(snapCount, accepts, minaddr), p, log, k).Some?
    ensures var cfg := NodeConfig(snapCount, accepts, minaddr);
            SameBooks(Story(cfg, p, log, k).value, AllBooked(p.l0, AppliedBlocks(cfg, p, log, k), minaddr))
  {
    var cfg := NodeConfig(snapCount, accepts, minaddr);
    if k == 0 {
      MarkedBooks(snapCount, accepts, minaddr, p.l0, log, 0, p.marks);
    } else {
      BookedOnce(snapCount, accepts, minaddr, p, log, k - 1);
      var l, bs, e := Story(cfg, p, log, k - 1).value, AppliedBlocks(cfg, p, log, k - 1), log[k - 1];
      EntryBooks(snapCount, accepts, minaddr, l, AllBooked(p.l0, bs, minaddr), e);
      MarkedBooks(snapCount, accepts, minaddr, ReplayEntry(cfg, l, e).value, log, k, p.marks);
      if Stale(l, e) {
        assert AppliedBlocks(cfg, p, log, k) == bs;
      } else {
        assert (bs + [e.kind.block])[..|bs|] == bs;
      }
    }
  }

  // ---------------------------------------------------------------- local changes

  /** The tears alone. */
  function Bare(marks: seq<Mark>): seq<Mark> {
    if marks == [] then []
    else Bare(marks[..|marks| - 1]) + if marks[|marks| - 1].Tear? then [marks[|marks| - 1]] else []
  }

  lemma {:induction false} BareInLine(marks: seq<Mark>, k: nat)
    requires InLine(marks, k)
    ensures InLine(Bare(marks), k)
  {
    if marks != [] {
      var init, t := marks[..|marks| - 1], marks[|marks| - 1];
      BareInLine(init, t.at);
      if t.Tear? {
        assert Bare(marks) == Bare(init) + [t] && Bare(marks)[..|Bare(marks)| - 1] == Bare(init);
      } else {
        assert Bare(marks) == Bare(init);
      }
    }
  }

  /** The same but for locks and for which accounts have a nonce record. */
  ghost predicate Alike(l: State, l1: State) {
    SameBooks(l, l1) && l.tokens == l1.tokens
  }

  lemma {:induction false} MarkedAlike(snapCount: nat, accepts: (State, Block) -> bool, minaddr: bytes,
                                       l: State, l1: State, log: seq<Entry>, k: nat, marks: seq<Mark>)
    requires k <= |log| && Alike(l, l1)
    ensures var cfg := NodeConfig(snapCount, accepts, minaddr);
            Alike(Marked(cfg, l, log, k, marks), Marked(cfg, l1, log, k, Bare(marks)))
  {
    if marks != [] {
      var cfg := NodeConfig(snapCount, accepts, minaddr);
      var init, t := marks[..|marks| - 1], marks[|marks| - 1];
      MarkedAlike(snapCount, accepts, minaddr, l, l1, log, k, init);
      var m, m1 := Marked(cfg, l, log, k, init), Marked(cfg, l1, log, k, Bare(init));
      if t.Local? {
        assert Bare(marks) == Bare(init);
        OneMarkBooks(snapCount, accepts, minaddr, m, log, k, t);
        assert SameBooks(Marked(cfg, l, log, k, marks), m);
      } else {
        assert Bare(marks) == Bare(init) + [t] && Bare(marks)[..|Bare(marks)| - 1] == Bare(init);
        TearAlike(snapCount, accepts, minaddr, m, m1, log, k, t);
      }
    }
  }

  lemma EntryAlike(snapCount: nat, accepts: (State, Block) -> bool, minaddr: bytes, l: State, l1: State, e: Entry)
    requires Alike(l, l1)
    requires ReplayEntry(NodeConfig(snapCount, accepts, minaddr), l, e).Some?
    requires ReplayEntry(NodeConfig(snapCount, accepts, minaddr), l1, e).Some?
    ensures var cfg := NodeConfig(snapCount, accepts, minaddr);
            Alike(ReplayEntry(cfg, l, e).value, ReplayEntry(cfg, l1, e).value)
  {
    if !Stale(l, e) {
      BookedAlike(l, l1, e.kind.block, minaddr);
    }
  }

  /** What local changes leave alone: where the log can be replayed with them and without, it gives the
      same height, balances, nonces and contract store. */
  lemma {:induction false} LocalChangesKeepBooks(snapCount: nat, accepts: (State, Block) -> bool, minaddr: bytes,
                                                 p: Past, log: seq<Entry>, k: nat)
    requires k <= |log| && Story(NodeConfig(snapCount, accepts, minaddr), p, log, k).Some?
    requires Story(NodeConfig(snapCount, accepts, minaddr), p.(marks := Bare(p.marks)), log, k).Some?
    ensures var cfg := NodeConfig(snapCount, accepts, minaddr);
            Alike(Story(cfg, p, log, k).value, Story(cfg, p.(marks := Bare(p.marks)), log, k).value)
  {
    var cfg, q := NodeConfig(snapCount, accepts, minaddr), p.(marks := Bare(p.marks));
    if k == 0 {
      MarkedAlike(snapCount, accepts, minaddr, p.l0, p.l0, log, 0, p.marks);
    } else {
      LocalChangesKeepBooks(snapCount, accepts, minaddr, p, log, k - 1);
      var l, l1, e := Story(cfg, p, log, k - 1).value, Story(cfg, q, log, k - 1).value, log[k - 1];
      EntryAlike(snapCount, accepts, minaddr, l, l1, e);
      MarkedAlike(snapCount, accepts, minaddr, ReplayEntry(cfg, l, e).value, ReplayEntry(cfg, l1, e).value,
                  log, k, p.marks);
    }
  }

  ghost predicate NoLocking(marks: seq<Mark>) {
    forall i :: 0 <= i < |marks| ==> marks[i].Tear? || marks[i].op.Asking?
  }

  lemma {:induction false} MarkedLocks(snapCount: nat, accepts: (State, Block) -> bool, minaddr: bytes,
                                       l: State, log: seq<Entry>, k: nat, marks: seq<Mark>)
    requires k <= |log| && NoLocking(marks)
    ensures Marked(NodeConfig(snapCount, accepts, minaddr), l, log, k, marks).locks == l.locks
  {
    if marks != [] {
      var init, t := marks[..|marks| - 1], marks[|marks| - 1];
      assert forall i :: 0 <= i < |init| ==> init[i] == marks[i];
      MarkedLocks(snapCount, accepts, minaddr, l, log, k, init);
      OneMarkBooks(snapCount, accepts, minaddr,
                   Marked(NodeConfig(snapCount, accepts, minaddr), l, log, k, init), log, k, t);
    }
  }

  /** Locks change by locking and unlocking only. */
  lemma {:induction false} LocksStay(snapCount: nat, accepts: (State, Block) -> bool, minaddr: bytes,
                                     p: Past, log: seq<Entry>, k: nat)
    requires k <= |log| && Story(NodeConfig(snapCount, accepts, minaddr), p, log, k).Some? && NoLocking(p.marks)
    ensures Story(NodeConfig(snapCount, accepts, minaddr), p, log, k).value.locks == p.l0.locks
  {
    var cfg := NodeConfig(snapCount, accepts, minaddr);
    if k == 0 {
      MarkedLocks(snapCount, accepts, minaddr, p.l0, log, 0, p.marks);
    } else {
      LocksStay(snapCount, accepts, minaddr, p, log, k - 1);
      var l := Story(cfg, p, log, k - 1).value;
      MarkedLocks(snapCount, accepts, minaddr, ReplayEntry(cfg, l, log[k - 1]).value, log, k, p.marks);
    }
  }

  // ---------------------------------------------------------------- exactly once

  /** What a node of this chain has after k entries, a past p and the ledger l: the blocks so far, each
      booked once and in order of height. */
  ghost predicate OnceEach(cfg: Config, minaddr: bytes, p: Past, log: seq<Entry>, k: nat, l: State)
    requires k <= |log|
  {
    var bs := AppliedBlocks(cfg, p, log, k);
    && Story(cfg, p, log, k) == Some(l)
    && SameBooks(l, AllBooked(p.l0, bs, minaddr))
    && l.height == p.l0.height + |bs|
    && (forall i :: 0 <= i < |bs| ==> bs[i].height == p.l0.height + i + 1)
    && (NoLocking(p.marks) ==> l.locks == p.l0.locks)
  }

  /** Its contract store is right too if every block torn by a crash mends and has been committed again:
      without local changes l is the plain replay; with them it is all the same but for locks and nonce
      records, as long as the log can be replayed without them. */
  ghost predicate PlainIfMended(cfg: Config, p: Past, log: seq<Entry>, k: nat, l: State)
    requires k <= |log|
  {
    var bs, q := AppliedBlocks(cfg, p, log, k), p.(marks := Bare(p.marks));
    && (AllMend(cfg, p, log) && NoneAt(p.marks, k) ==> Replay(cfg, p.l0, log, k) == Some(l))
    && (AllMend(cfg, q, log) && NoneAt(q.marks, k) && Replay(cfg, p.l0, log, k).Some? ==>
          CommitAll(cfg, p.l0, bs) == Replay(cfg, p.l0, log, k) && Alike(l, Replay(cfg, p.l0, log, k).value))
  }

  /** What is right about a node, and about the files of one that is down. While it runs it knows its own
      height; and it stops on a block only if the log cannot be replayed that far with what happened to
      its ledger. */
  ghost predicate IsRight(cfg: Config, minaddr: bytes, l0: State, log: seq<Entry>, st: Stage) {
    var p, n := PastAfter(Past(l0, st.marks), st.outcome), st.outcome.node;
    && st.applied <= |log|
    && OnceEach(cfg, minaddr, p, log, st.applied, n.ledger)
    && PlainIfMended(cfg, p, log, st.applied, n.ledger)
    && (st.outcome.Running? ==> n.committedIndex <= st.applied && n.lastHeight == n.ledger.height)
    && (st.outcome.Halted? ==>
          st.outcome.at == st.applied < |log| && Story(cfg, Past(l0, st.marks), log, st.applied + 1) == None)
  }

  /** Exactly once: after any run of deliveries, re-deliveries, recoveries, crashes - also in the
      middle of a block -, panics, restarts and local changes, a node has booked every block of the log
      so far once and in order of height. */
  lemma ExactlyOnce(snapCount: nat, accepts: (State, Block) -> bool, minaddr: bytes, l0: State, log: seq<Entry>,
                    steps: seq<Step>)
    requires snapCount > 0 && WellIndexed(log)
    requires IsRun(NodeConfig(snapCount, accepts, minaddr), log, Fresh(l0), steps)
    ensures var cfg := NodeConfig(snapCount, accepts, minaddr);
            IsRight(cfg, minaddr, l0, log, RunFrom(cfg, log, Fresh(l0), steps))
  {
    var cfg := NodeConfig(snapCount, accepts, minaddr);
    NodesCommitInOrder(snapCount, accepts, minaddr);
    FreshIsSafe(cfg, l0, log);
    RunsAreSafe(cfg, l0, log, Fresh(l0), steps);
    SafeIsRight(cfg, snapCount, accepts, minaddr, l0, log, RunFrom(cfg, log, Fresh(l0), steps));
  }

  lemma SafeIsRight(cfg: Config, snapCount: nat, accepts: (State, Block) -> bool, minaddr: bytes, l0: State,
                    log: seq<Entry>, st: Stage)
    requires cfg == NodeConfig(snapCount, accepts, minaddr) && Safe(cfg, l0, log, st)
    ensures IsRight(cfg, minaddr, l0, log, st)
  {
    SafeMeans(cfg, Past(l0, st.marks), log, st.applied, st.outcome);
    BooksAreRight(snapCount, accepts, minaddr, PastAfter(Past(l0, st.marks), st.outcome), log, st.applied);
  }

  lemma FreshIsSafe(cfg: Config, l0: State, log: seq<Entry>)
    ensures Safe(cfg, l0, log, Fresh(l0))
  {
  }

  lemma SafeMeans(cfg: Config, p: Past, log: seq<Entry>, k: nat, o: Outcome)
    requires SafeFrom(cfg, p, log, k, o)
    ensures k <= |log| && MarkedUpTo(PastAfter(p, o), k) && Story(cfg, PastAfter(p, o), log, k) == Some(o.node.ledger)
    ensures o.Running? ==> o.node.committedIndex <= k && o.node.lastHeight == o.node.ledger.height
    ensures o.Halted? ==> o.at == k < |log| && Story(cfg, p, log, k + 1) == None
  {
  }

  lemma BooksAreRight(snapCount: nat, accepts: (State, Block) -> bool, minaddr: bytes, p: Past, log: seq<Entry>, k: nat)
    requires k <= |log| && MarkedUpTo(p, k) && Story(NodeConfig(snapCount, accepts, minaddr), p, log, k).Some?
    ensures var cfg := NodeConfig(snapCount, accepts, minaddr);
            var l := Story(cfg, p, log, k).value;
            OnceEach(cfg, minaddr, p, log, k, l) && PlainIfMended(cfg, p, log, k, l)
  {
    var cfg := NodeConfig(snapCount, accepts, minaddr);
    NodesCommitInOrder(snapCount, accepts, minaddr);
    HeightsContiguous(cfg, p, log, k);
    BookedOnce(snapCount, accepts, minaddr, p, log, k);
    if NoLocking(p.marks) {
      LocksStay(snapCount, accepts, minaddr, p, log, k);
    }
    MendedLedger(snapCount, accepts, minaddr, p, log, k);
  }

  lemma MendedLedger(snapCount: nat, accepts: (State, Block) -> bool, minaddr: bytes, p: Past, log: seq<Entry>, k: nat)
    requires k <= |log| && MarkedUpTo(p, k) && Story(NodeConfig(snapCount, accepts, minaddr), p, log, k).Some?
    ensures var cfg := NodeConfig(snapCount, accepts, minaddr);
            PlainIfMended(cfg, p, log, k, Story(cfg, p, log, k).value)
  {
    var cfg, q := NodeConfig(snapCount, accepts, minaddr), p.(marks := Bare(p.marks));
    NodesCommitInOrder(snapCount, accepts, minaddr);
    if AllMend(cfg, p, log) && NoneAt(p.marks, k) {
      MendedIsReplay(cfg, p, log, k);
    }
    if AllMend(cfg, q, log) && NoneAt(q.marks, k) && Replay(cfg, p.l0, log, k).Some? {
      BareInLine(p.marks, k);
      MarkedLater(q, k, |log|);
      MendedIsReplay(cfg, q, log, k);
      LocalChangesKeepBooks(snapCount, accepts, minaddr, p, log, k);
      SameBlocks(cfg, p, log, k);
      ReplayCommits(cfg, p.l0, log, k);
    }
  }

  // ---------------------------------------------------------------- a commit index saved too early

  /** Skipped entries leave no trace. */
  lemma {:induction false} CommittedAreSkipped(cfg: Config, n: Node, es: seq<Entry>)
    requires forall i :: 0 <= i < |es| ==> es[i].index <= n.committedIndex
    ensures CommitEntries(cfg, n, es) == Some(n)
  {
    if es != [] {
      CommittedAreSkipped(cfg, n, es[..|es| - 1]);
    }
  }

  /** The blocks of a stretch of log are all stale exactly when replaying it changes nothing. */
  lemma {:induction false} StaleStretch(cfg: Config, l0: State, log: seq<Entry>, d: nat, c: nat)
    requires CommitsInOrder(cfg) && d <= c <= |log| && Replay(cfg, l0, log, c).Some?
    ensures Replay(cfg, l0, log, d).Some?
    ensures var l, l1 := Replay(cfg, l0, log, d).value, Replay(cfg, l0, log, c).value;
            && l.height <= l1.height
            && (l == l1 <==> forall i :: d <= i < c && log[i].kind.BlockData? ==> log[i].kind.block.height <= l.height)
    decreases c
  {
    if d < c {
      StaleStretch(cfg, l0, log, d, c - 1);
      ReplayEntryHeight(cfg, Replay(cfg, l0, log, c - 1).value, log[c - 1]);
    }
  }

  /** The restart trusts the commit index of the write-ahead log, which is written as raft gives it
      even when not all those entries were handed over yet. A node that crashes with the index c
      ahead of its ledger (d entries) and is then handed everything up to c again has the right
      ledger if and only if no entry between d and c carries a new block. */
  lemma PersistedAheadLoses(cfg: Config, l0: State, log: seq<Entry>, n: Node, d: nat, lo: nat)
    requires Setting(cfg, log) && lo <= d <= n.walCommit <= |log|
    requires Replay(cfg, l0, log, n.walCommit).Some? && Replay(cfg, l0, log, d) == Some(n.ledger)
    requires LastSnapshot(n.disk) <= n.walCommit
    ensures var m := CommitEntries(cfg, Restart(n).node, Stretch(log, lo, n.walCommit));
            && m.Some?
            && (Replay(cfg, l0, log, n.walCommit) == Some(m.value.ledger)
                <==> forall i :: d <= i < n.walCommit && log[i].kind.BlockData? ==>
                       log[i].kind.block.height <= n.ledger.height)
  {
    StretchIsSlice(log, lo, n.walCommit);
    CommittedAreSkipped(cfg, Restart(n).node, Stretch(log, lo, n.walCommit));
    StaleStretch(cfg, l0, log, d, n.walCommit);
  }
}
