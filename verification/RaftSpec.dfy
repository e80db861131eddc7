/** The log-applying node of raftconsensus/node.go: what each of its steps does to its indices,
    its ledger and its files. */
module RaftSpec {
  import opened Bytes
  import opened Options
  import opened Ledger
  import opened Multiples
  import T = TokenExec

  datatype Kind = NoData | Undecodable | ConfChange | BlockData(block: Block)

  datatype Entry = Entry(index: nat, term: nat, kind: Kind)

  /** A snapshot carries the log entries since the one before; None if its data do not decode. */
  datatype Snapshot = Snapshot(index: nat, entries: Option<seq<Entry>>)

  /** snapCount, checkBlock with VerifyBlcok as one test of a block, CommitBlock, and what is on disk
      after a crash in CommitBlock when the scripts of so many transactions are flushed. */
  datatype Config = Config(snapCount: nat, accepts: (State, Block) -> bool, commit: (State, Block) -> Option<State>,
                           torn: (State, Block, nat) -> State)

  /** A node of this chain, with the address its fees go to. */
  ghost function NodeConfig(snapCount: nat, accepts: (State, Block) -> bool, minaddr: bytes): Config {
    Config(snapCount, accepts,
           (l: State, b: Block) =>
             if T.WellStored(l.tokens) && ValidTxs(b.txs) then WithBlock(l, b, minaddr) else None,
           (l: State, b: Block, j: nat) =>
             if T.WellStored(l.tokens) && ValidTxs(b.txs) then l.(tokens := Flushed(l.tokens, b.txs, j)) else l)
  }

  datatype Node = Node(
    // lost in a crash
    committedIndex: nat, snapshotIndex: nat, lastHeight: nat, storageCommit: nat, firstIndex: nat,
    // kept on disk: the ledger, the commit index in the write-ahead log, the snapshot files
    ledger: State, walCommit: nat, disk: seq<Snapshot>)

  /** Entries lo..hi of a log, written so that it unfolds at its end as CommitEntries does. */
  function Stretch(log: seq<Entry>, lo: nat, hi: nat): (r: seq<Entry>)
    requires lo <= hi <= |log|
    ensures |r| == hi - lo
    decreases hi
  {
    if lo == hi then [] else Stretch(log, lo, hi - 1) + [log[hi - 1]]
  }

  lemma {:induction false} StretchIsSlice(log: seq<Entry>, lo: nat, hi: nat)
    requires lo <= hi <= |log|
    ensures Stretch(log, lo, hi) == log[lo..hi]
    decreases hi
  {
    if lo < hi {
      StretchIsSlice(log, lo, hi - 1);
      assert log[lo..hi] == log[lo..hi - 1] + [log[hi - 1]];
    }
  }

  lemma StretchOfStretch(log: seq<Entry>, lo: nat, hi: nat, a: nat, b: nat)
    requires lo <= hi <= |log| && a <= b <= hi - lo
    ensures Stretch(Stretch(log, lo, hi), a, b) == Stretch(log, lo + a, lo + b)
  {
    StretchIsSlice(log, lo, hi);
    StretchIsSlice(Stretch(log, lo, hi), a, b);
    StretchIsSlice(log, lo + a, lo + b);
    assert log[lo..hi][a..b] == log[lo + a..lo + b];
  }

  // ---------------------------------------------------------------- applying entries

  /** One entry of commitEntries; None is a panic. */
  ghost function ApplyEntry(cfg: Config, n: Node, e: Entry): Option<Node> {
    if e.index <= n.committedIndex then Some(n)
    else match e.kind
      case NoData => Some(n.(committedIndex := e.index))
      case ConfChange => Some(n.(committedIndex := e.index))
      case Undecodable => Some(n)
      case BlockData(b) =>
        if b.height <= n.lastHeight then Some(n.(committedIndex := n.committedIndex + 1))
        else if b.height - n.lastHeight != 1 || !cfg.accepts(n.ledger, b) then None
        else match cfg.commit(n.ledger, b)
          case None => None
          case Some(l) => Some(n.(ledger := l, lastHeight := b.height, committedIndex := e.index))
  }

  ghost function CommitEntries(cfg: Config, n: Node, es: seq<Entry>): Option<Node> {
    if es == [] then Some(n)
    else match CommitEntries(cfg, n, es[..|es| - 1])
      case None => None
      case Some(m) => ApplyEntry(cfg, m, es[|es| - 1])
  }

  // ---------------------------------------------------------------- snapshots

  /** The end of a Ready: a snapshot when snapCount entries have gathered. `log` is what the raft
      storage holds, `saved` whether creating and saving it went well. */
  function MaybeSnapshot(cfg: Config, log: seq<Entry>, n: Node, saved: bool): Node
    requires cfg.snapCount > 0
  {
    if n.committedIndex > n.snapshotIndex && n.committedIndex - n.snapshotIndex >= cfg.snapCount then
      TriggerSnapshot(log, n, n.committedIndex - n.committedIndex % cfg.snapCount, saved)
    else n
  }

  /** maybeTriggerSnapshot: entries from the last snapshot on, unless they have been compacted. */
  function TriggerSnapshot(log: seq<Entry>, n: Node, appIndex: nat, saved: bool): Node {
    if n.snapshotIndex + 1 < n.firstIndex || !(n.snapshotIndex <= appIndex <= |log|) || !saved then n
    else n.(disk := n.disk + [Snapshot(appIndex, Some(Stretch(log, n.snapshotIndex, appIndex)))],
            snapshotIndex := appIndex, firstIndex := appIndex + 1)
  }

  /** snapEntriesToApply: the entries from index ci on; None is its error. */
  function EntriesFrom(ci: nat, es: seq<Entry>): Option<seq<Entry>>
    requires es != []
  {
    if ci < es[0].index || ci > es[|es| - 1].index || ci - es[0].index > |es| then None
    else Some(Stretch(es, ci - es[0].index, |es|))
  }

  /** Where a crash falls: after `entries` entries and, if the next one is a block to commit, after
      the scripts of `flushed` of its transactions have reached the contract store. */
  datatype Crash = Crash(entries: nat, flushed: nat)

  /** An answer of the leader while a chain of snapshots is fetched: a failed call; nothing yet, or a
      snapshot that carries no data; data that do not decode; a snapshot, with whether saving it here
      will succeed; or one during which this node crashes. */
  datatype Reply = Failure | Idle | Garbled | Reply(snap: Snapshot, saved: bool) | Cut(snap: Snapshot, crash: Crash)

  /** The entries a snapshot has for a node that has committed up to c. */
  function Missing(c: nat, s: Snapshot): Option<seq<Entry>> {
    if s.index == 0 || s.entries.None? || s.entries.value == [] then None
    else EntriesFrom(c + 1, s.entries.value)
  }

  function Prefix(es: seq<Entry>, k: nat): seq<Entry> {
    Stretch(es, 0, if k < |es| then k else |es|)
  }

  /** What else happens to a node's ledger: a balance is locked or unlocked, or an account is asked for
      its nonce, which writes a record for it if it has none. */
  datatype LocalOp = Locking(addr: bytes, amount: uint64) | Unlocking(addr: bytes, amount: uint64) | Asking(addr: bytes)

  function LocalChange(l: State, op: LocalOp): State {
    match op
    case Locking(a, n) => l.(locks := Lock(l.balances, l.locks, a, n).1)
    case Unlocking(a, n) => l.(locks := Unlock(l.locks, a, n).1)
    case Asking(a) => l.(nonces := l.nonces[a := NonceOf(l.nonces, a)])
  }

  /** What has happened to the ledger in front of the entry behind `at` others, not by the log: its
      block was half committed, so many scripts flushed, or a local change. */
  datatype Mark = Tear(at: nat, flushed: nat) | Local(at: nat, op: LocalOp)

  /** A crash while e is being committed: if it carries the next block, scripts flushed so far stay,
      and the rest of the commit is lost. */
  ghost function CrashAt(cfg: Config, m: Node, e: Entry, j: nat): Outcome {
    if e.index > m.committedIndex && e.kind.BlockData? && e.kind.block.height == m.lastHeight + 1
       && cfg.accepts(m.ledger, e.kind.block) then
      Down(m.(ledger := cfg.torn(m.ledger, e.kind.block, j)), Some(Tear(e.index - 1, j)))
    else Down(m, None)
  }

  ghost function CommitCut(cfg: Config, n: Node, es: seq<Entry>, c: Crash): Outcome {
    CutTo(cfg, n, Prefix(es, c.entries), if c.entries < |es| then Some(es[c.entries]) else None, c.flushed)
  }

  /** Commits entries up to a crash, with the one it falls on, if it falls on one. */
  ghost function CutTo(cfg: Config, n: Node, es: seq<Entry>, next: Option<Entry>, flushed: nat): Outcome {
    match CommitEntries(cfg, n, es)
    case None => Panicked(cfg, n, es)
    case Some(m) => if next.Some? then CrashAt(cfg, m, next.value, flushed) else Down(m, None)
  }

  /** Running on; down by a panic or a crash, perhaps with a block half committed; or down by a block
      the ledger cannot take, in the entry behind `at` others. */
  datatype Outcome = Running(node: Node) | Down(node: Node, torn: Option<Mark>)
                   | Halted(node: Node, at: nat, torn: Option<Mark>)

  /** The panic on e: what of its scripts can be flushed has been, if it came to that. */
  ghost function PanicAt(cfg: Config, m: Node, e: Entry): (r: Outcome)
    ensures r.Halted?
  {
    var o := CrashAt(cfg, m, e, if e.kind.BlockData? then |e.kind.block.txs| else 0);
    Halted(o.node, if e.index > 0 then e.index - 1 else 0, o.torn)
  }

  /** Where committing es panics, if it does. */
  ghost function Panicked(cfg: Config, n: Node, es: seq<Entry>): (r: Outcome)
    ensures r.Halted?
  {
    if es == [] then Halted(n, n.committedIndex, None)
    else match CommitEntries(cfg, n, es[..|es| - 1])
      case None => Panicked(cfg, n, es[..|es| - 1])
      case Some(m) => PanicAt(cfg, m, es[|es| - 1])
  }

  /** The effect of taking over a snapshot whose entries from committedIndex on are es. */
  ghost function TakeOver(cfg: Config, n: Node, s: Snapshot, es: seq<Entry>): Option<Node> {
    match CommitEntries(cfg, n, es)
    case None => None
    case Some(m) => Some(m.(disk := m.disk + [s], snapshotIndex := s.index, committedIndex := s.index))
  }

  /** One turn of the loop that fetches missing snapshots: once more from here, or out of it. */
  datatype Turn = Again(node: Node) | Leave(outcome: Outcome)

  ghost function Answer(cfg: Config, n: Node, r: Reply): Turn {
    match r
    case Failure => Leave(Down(n, None))
    case Idle => Again(n)
    case Garbled => Leave(Running(n))
    case Cut(s, c) =>
      (match Missing(n.committedIndex, s)
       case None => Leave(Down(n, None))
       case Some(es) => Leave(CommitCut(cfg, n, es, c)))
    case Reply(s, saved) =>
      match Missing(n.committedIndex, s)
      case None => Leave(Running(n))
      case Some(es) =>
        match CommitEntries(cfg, n, es)
        case None => Leave(Panicked(cfg, n, es))
        case Some(m) => if saved then Again(TakeOver(cfg, n, s, es).value) else Leave(Running(m))
  }

  /** The loop: fetch what is missing below the target. */
  ghost function Chase(cfg: Config, n: Node, target: nat, replies: seq<Reply>): Outcome
    requires cfg.snapCount > 0
    decreases |replies|
  {
    if n.snapshotIndex + cfg.snapCount >= target || !Multiple(n.snapshotIndex, cfg.snapCount) then Running(n)
    else if replies == [] then Down(n, None)
    else match Answer(cfg, n, replies[0])
      case Again(m) => Chase(cfg, m, target, replies[1..])
      case Leave(o) => o
  }

  /** The last part of recoverSnapshotData, once the node stands one snapshot below the target;
      cut is where it stops, by a crash or by the panic of a failed save. */
  ghost function FinishRecovery(cfg: Config, n: Node, s: Snapshot, cut: Option<Crash>): Outcome
    requires cfg.snapCount > 0
  {
    if n.snapshotIndex + cfg.snapCount != s.index || !Multiple(n.snapshotIndex, cfg.snapCount) then Running(n)
    else match Missing(n.committedIndex, s)
      case None => Running(n)
      case Some(es) =>
        if cut.Some? then CommitCut(cfg, n, es, cut.value)
        else match TakeOver(cfg, n, s, es)
          case None => Panicked(cfg, n, es)
          case Some(m) => Running(m)
  }

  ghost function ChaseAndFinish(cfg: Config, n: Node, s: Snapshot, replies: seq<Reply>, cut: Option<Crash>): Outcome
    requires cfg.snapCount > 0
  {
    match Chase(cfg, n, s.index, replies)
    case Running(m) =>
      if m.snapshotIndex + cfg.snapCount != s.index then Down(m, None) else FinishRecovery(cfg, m, s, cut)
    case o => o
  }

  /** recoverSnapshotData. */
  ghost function Recover(cfg: Config, n: Node, s: Snapshot, replies: seq<Reply>, cut: Option<Crash>): Outcome
    requires cfg.snapCount > 0
  {
    if s.index == 0 || s.index <= n.committedIndex then Running(n)
    else if s.entries.None? || s.entries.value == [] then Running(n)
    else
      var es := s.entries.value;
      if n.snapshotIndex >= es[|es| - 1].index then Running(n)
      else
        var n0 := n.(committedIndex := n.storageCommit);
        if n0.committedIndex < es[0].index && n0.snapshotIndex < es[0].index then
          ChaseAndFinish(cfg, n0, s, replies, cut)
        else FinishRecovery(cfg, n0, s, cut)
  }

  // ---------------------------------------------------------------- a Ready, a crash, a restart

  /** What raft hands over at once: a snapshot from the leader, committed entries, and the commit
      index of its hard state if that changed. */
  datatype Ready = Ready(snapshot: Option<Snapshot>, committed: seq<Entry>, hard: Option<nat>)

  /** What the outside decides while a Ready is handled. */
  datatype World = World(replies: seq<Reply>, cut: Option<Crash>, savedSnapshot: bool)

  /** The first part of a Ready: recover from the snapshot and hand it to the storage. */
  ghost function Receive(cfg: Config, n: Node, rd: Ready, w: World): Outcome
    requires cfg.snapCount > 0
  {
    match rd.snapshot
    case None => Running(n)
    case Some(s) =>
      if s.index == 0 then Running(n)
      else match Recover(cfg, n, s, w.replies, w.cut)
        case Running(m) => Running(m.(firstIndex := if s.index + 1 > m.firstIndex then s.index + 1 else m.firstIndex))
        case o => o
  }

  /** The hard state goes to the write-ahead log as raft gave it, and to the storage with its
      commit index lowered to what this node has committed. */
  function SaveHardState(n: Node, hard: Option<nat>): Node {
    match hard
    case None => n
    case Some(c) => n.(walCommit := c, storageCommit := if n.committedIndex < c then n.committedIndex else c)
  }

  /** The rest of a Ready: commit, save, take a snapshot. */
  ghost function Proceed(cfg: Config, log: seq<Entry>, o: Outcome, rd: Ready, w: World): Outcome
    requires cfg.snapCount > 0
  {
    match o
    case Running(m) =>
      (match CommitEntries(cfg, m, rd.committed)
       case None => Panicked(cfg, m, rd.committed)
       case Some(m1) => Running(MaybeSnapshot(cfg, log, SaveHardState(m1, rd.hard), w.savedSnapshot)))
    case _ => o
  }

  ghost function HandleReady(cfg: Config, log: seq<Entry>, n: Node, rd: Ready, w: World): Outcome
    requires cfg.snapCount > 0
  {
    Proceed(cfg, log, Receive(cfg, n, rd, w), rd, w)
  }

  /** A crash among the committed entries, before the log is saved. */
  ghost function BreakOff(cfg: Config, o: Outcome, rd: Ready, c: Crash): Outcome {
    if o.Running? then CommitCut(cfg, o.node, rd.committed, c) else o
  }

  ghost function CrashInReady(cfg: Config, n: Node, rd: Ready, w: World, c: Crash): Outcome
    requires cfg.snapCount > 0
  {
    BreakOff(cfg, Receive(cfg, n, rd, w), rd, c)
  }

  function LastSnapshot(disk: seq<Snapshot>): nat {
    if disk == [] then 0 else disk[|disk| - 1].index
  }

  /** readWAL and the start of handleChanel: indices from the files, the height from the ledger.
      Raft itself refuses a commit index below the snapshot. */
  function Restart(n: Node): Outcome {
    var s := LastSnapshot(n.disk);
    if n.walCommit < s then Down(n, None)
    else Running(n.(committedIndex := n.walCommit, snapshotIndex := s, lastHeight := n.ledger.height,
                    storageCommit := n.walCommit, firstIndex := s + 1))
  }
}
