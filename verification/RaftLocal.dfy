/** What locks and nonce records, which each node changes on its own, do to the blocks it takes. */
module RaftLocal {
  import opened Bytes
  import opened Options
  import opened Rewards
  import opened Ledger
  import opened TxPool
  import opened RaftSpec
  import opened RaftSafety
  import T = TokenExec

  // ---------------------------------------------------------------- nonce records

  ghost predicate Twins(l: State, l1: State) {
    Alike(l, l1) && l.locks == l1.locks
  }

  /** What a node asks of a block: VerifyBlcok applies the tests of admission to every transaction, and
      the rest of the tests reads balances and the contract store only. */
  ghost predicate Tests(accepts: (State, Block) -> bool, rest: (Amounts, T.KV, Block) -> bool) {
    forall l: State, b: Block :: accepts(l, b) <==> rest(l.balances, l.tokens, b) && AllAdmitted(l, b)
  }

  ghost predicate AllAdmitted(l: State, b: Block) {
    forall i :: 0 <= i < |b.txs| ==> Admits(l, b.txs[i], true, true)
  }

  lemma TwinsAdmit(l: State, l1: State, b: Block)
    requires Twins(l, l1)
    ensures AllAdmitted(l, b) <==> AllAdmitted(l1, b)
  {
    assert forall a :: NonceOf(l.nonces, a) == NonceOf(l1.nonces, a);
    forall i | 0 <= i < |b.txs| ensures Admits(l, b.txs[i], true, true) <==> Admits(l1, b.txs[i], true, true) {
      assert NonceOf(l.nonces, b.txs[i].from) == NonceOf(l1.nonces, b.txs[i].from);
    }
  }

  lemma {:induction false} BareIsUnlocked(marks: seq<Mark>)
    requires NoLocking(marks)
    ensures NoLocking(Bare(marks))
  {
    if marks != [] {
      var init := marks[..|marks| - 1];
      assert forall i :: 0 <= i < |init| ==> init[i] == marks[i];
      BareIsUnlocked(init);
    }
  }

  lemma MarkedTwins(snapCount: nat, accepts: (State, Block) -> bool, minaddr: bytes,
                    l: State, l1: State, log: seq<Entry>, k: nat, marks: seq<Mark>)
    requires k <= |log| && Twins(l, l1) && NoLocking(marks)
    ensures var cfg := NodeConfig(snapCount, accepts, minaddr);
            Twins(Marked(cfg, l, log, k, marks), Marked(cfg, l1, log, k, Bare(marks)))
  {
    MarkedAlike(snapCount, accepts, minaddr, l, l1, log, k, marks);
    BareIsUnlocked(marks);
    MarkedLocks(snapCount, accepts, minaddr, l, log, k, marks);
    MarkedLocks(snapCount, accepts, minaddr, l1, log, k, Bare(marks));
  }

  lemma EntryTwins(snapCount: nat, accepts: (State, Block) -> bool, rest: (Amounts, T.KV, Block) -> bool,
                   minaddr: bytes, l: State, l1: State, e: Entry)
    requires Twins(l, l1) && Tests(accepts, rest)
    ensures var cfg := NodeConfig(snapCount, accepts, minaddr);
            var r, r1 := ReplayEntry(cfg, l, e), ReplayEntry(cfg, l1, e);
            (r.Some? <==> r1.Some?) && (r.Some? ==> Twins(r.value, r1.value))
  {
    var cfg := NodeConfig(snapCount, accepts, minaddr);
    if e.kind.BlockData? {
      TwinsAdmit(l, l1, e.kind.block);
    }
    if ReplayEntry(cfg, l, e).Some? && ReplayEntry(cfg, l1, e).Some? {
      EntryAlike(snapCount, accepts, minaddr, l, l1, e);
    }
  }

  /** Asking for nonces changes nothing that is seen from outside: as long as no lock changes, a node
      takes exactly the blocks it would have taken, and has the same books, locks and contract store. */
  lemma {:induction false} AskingIsHarmless(snapCount: nat, accepts: (State, Block) -> bool,
                                            rest: (Amounts, T.KV, Block) -> bool, minaddr: bytes,
                                            p: Past, log: seq<Entry>, k: nat)
    requires k <= |log| && NoLocking(p.marks) && Tests(accepts, rest)
    ensures var cfg := NodeConfig(snapCount, accepts, minaddr);
            var r, r1 := Story(cfg, p, log, k), Story(cfg, p.(marks := Bare(p.marks)), log, k);
            (r.Some? <==> r1.Some?) && (r.Some? ==> Twins(r.value, r1.value))
  {
    var cfg, q := NodeConfig(snapCount, accepts, minaddr), p.(marks := Bare(p.marks));
    if k == 0 {
      MarkedTwins(snapCount, accepts, minaddr, p.l0, p.l0, log, 0, p.marks);
    } else {
      AskingIsHarmless(snapCount, accepts, rest, minaddr, p, log, k - 1);
      var r, r1 := Story(cfg, p, log, k - 1), Story(cfg, q, log, k - 1);
      if r.Some? {
        EntryTwins(snapCount, accepts, rest, minaddr, r.value, r1.value, log[k - 1]);
        var s, s1 := ReplayEntry(cfg, r.value, log[k - 1]), ReplayEntry(cfg, r1.value, log[k - 1]);
        if s.Some? {
          MarkedTwins(snapCount, accepts, minaddr, s.value, s1.value, log, k, p.marks);
        }
      }
    }
  }

  // ---------------------------------------------------------------- locks

  /** What an account may spend. */
  function Room(l: State, a: bytes): int {
    Get(l.balances, a) as int - Get(l.locks, a) as int
  }

  /** How much less that is after a local change. */
  function Taken(l: State, op: LocalOp, a: bytes): int {
    match op
    case Locking(b, n) => if a == b && n as int <= Room(l, a) then n as int else 0
    case Unlocking(b, n) => if a == b && n <= Get(l.locks, a) then -(n as int) else 0
    case Asking(_) => 0
  }

  lemma RoomAfter(l: State, op: LocalOp, a: bytes)
    requires Covered(l.balances, l.locks)
    ensures Covered(l.balances, LocalChange(l, op).locks)
    ensures Room(LocalChange(l, op), a) == Room(l, a) - Taken(l, op, a)
  {
    match op
    case Locking(b, n) => RoomLocked(l, b, n, a);
    case Unlocking(b, n) => RoomUnlocked(l, b, n, a);
    case Asking(_) =>
  }

  lemma RoomLocked(l: State, b: bytes, n: uint64, a: bytes)
    requires Covered(l.balances, l.locks)
    ensures var locks := Lock(l.balances, l.locks, b, n).1;
            && Covered(l.balances, locks)
            && Get(locks, a) as int == Get(l.locks, a) as int + if a == b && n as int <= Room(l, a) then n as int else 0
  {
    assert LockWithinBalance(l.balances, l.locks, b);
    LockIff(l.balances, l.locks, b, n);
  }

  lemma RoomUnlocked(l: State, b: bytes, n: uint64, a: bytes)
    requires Covered(l.balances, l.locks)
    ensures var locks := Unlock(l.locks, b, n).1;
            && Covered(l.balances, locks)
            && Get(locks, a) as int == Get(l.locks, a) as int - if a == b && n <= Get(l.locks, a) then n as int else 0
  {
    LockIff(l.balances, l.locks, b, n);
  }

  /** With every lock covered, a transaction is admitted if and only if its amount, and the fee of a
      script, fit each in what may be spent. */
  lemma AdmitsIff(l: State, t: Transaction, wellFormed: bool, orderGood: bool)
    requires LockWithinBalance(l.balances, l.locks, t.from)
    ensures Admits(l, t, wellFormed, orderGood) <==>
            && wellFormed && orderGood && t.nonce >= NonceOf(l.nonces, t.from)
            && LEAST as int <= t.amount as int <= Room(l, t.from)
            && (t.script != [] ==> LEAST as int <= t.fee as int <= Room(l, t.from))
  {
  }

  /** A transaction fits beside a local change. */
  predicate Fits(l: State, op: LocalOp, t: Transaction) {
    && t.amount as int + Taken(l, op, t.from) <= Room(l, t.from)
    && (t.script != [] ==> t.fee as int + Taken(l, op, t.from) <= Room(l, t.from))
  }

  /** So a local change makes a transaction inadmissible exactly if it takes too much of the sender's
      room; and an unlock, or a question for a nonce, never does. */
  lemma AdmitsAfter(l: State, op: LocalOp, t: Transaction)
    requires Covered(l.balances, l.locks) && Admits(l, t, true, true)
    ensures Admits(LocalChange(l, op), t, true, true) <==> Fits(l, op, t)
    ensures op.Unlocking? || op.Asking? ==> Fits(l, op, t)
  {
    assert LockWithinBalance(l.balances, l.locks, t.from);
    RoomAfter(l, op, t.from);
    assert LockWithinBalance(l.balances, LocalChange(l, op).locks, t.from);
    AdmitsIff(l, t, true, true);
    AdmitsIff(LocalChange(l, op), t, true, true);
  }

  ghost predicate AllFit(l: State, op: LocalOp, b: Block) {
    forall i :: 0 <= i < |b.txs| ==> Fits(l, op, b.txs[i])
  }

  lemma AllAdmittedAfter(l: State, op: LocalOp, b: Block)
    requires Covered(l.balances, l.locks) && AllAdmitted(l, b)
    ensures AllAdmitted(LocalChange(l, op), b) <==> AllFit(l, op, b)
    ensures op.Unlocking? || op.Asking? ==> AllFit(l, op, b)
  {
    forall i | 0 <= i < |b.txs|
      ensures Admits(LocalChange(l, op), b.txs[i], true, true) <==> Fits(l, op, b.txs[i])
      ensures op.Unlocking? || op.Asking? ==> Fits(l, op, b.txs[i])
    {
      AdmitsAfter(l, op, b.txs[i]);
    }
  }

  /** A ledger takes a new block after a local change exactly if it did before and everything in it fits. */
  lemma TakesAfter(snapCount: nat, accepts: (State, Block) -> bool, rest: (Amounts, T.KV, Block) -> bool,
                   minaddr: bytes, l: State, op: LocalOp, e: Entry)
    requires Tests(accepts, rest) && Covered(l.balances, l.locks) && !Stale(l, e)
    requires ReplayEntry(NodeConfig(snapCount, accepts, minaddr), l, e).Some?
    ensures ReplayEntry(NodeConfig(snapCount, accepts, minaddr), LocalChange(l, op), e).Some?
            <==> AllFit(l, op, e.kind.block)
    ensures op.Unlocking? || op.Asking? ==> AllFit(l, op, e.kind.block)
  {
    var l1, b := LocalChange(l, op), e.kind.block;
    ChangeBooks(l, op);
    AllAdmittedAfter(l, op, b);
    assert accepts(l, b) && rest(l.balances, l.tokens, b);
    assert accepts(l1, b) <==> AllAdmitted(l1, b);
  }

  /** The Ready that hands over the next entry and nothing else. */
  function NextReady(log: seq<Entry>, k: nat): Ready
    requires k < |log|
  {
    Ready(None, Stretch(log, k, k + 1), None)
  }

  function Next(log: seq<Entry>, k: nat, w: World): Step
    requires k < |log|
  {
    Handle(NextReady(log, k), w, k, k + 1)
  }

  /** A node handed the next entry stops exactly if its ledger cannot take it. */
  lemma NextEntry(cfg: Config, log: seq<Entry>, n: Node, k: nat, w: World)
    requires Setting(cfg, log) && k < |log| && n.lastHeight == n.ledger.height && n.committedIndex <= k
    ensures var o := HandleReady(cfg, log, n, NextReady(log, k), w);
            if ReplayEntry(cfg, n.ledger, log[k]).Some? then o.Running? else o.Halted? && o.at == k
  {
    var es := Stretch(log, k, k + 1);
    assert es == [log[k]] && es[..0] == [];
    assert CommitEntries(cfg, n, es[..0]) == Some(n);
    ApplyEntryReplays(cfg, n, log[k]);
  }

  lemma NextIsAllowed(cfg: Config, l0: State, log: seq<Entry>, st: Stage, w: World)
    requires Setting(cfg, log) && Safe(cfg, l0, log, st) && st.outcome.Running? && st.applied < |log| && w.replies == []
    ensures Allowed(cfg, log, st, Next(log, st.applied, w))
    ensures var n := st.outcome.node; n.lastHeight == n.ledger.height && n.committedIndex <= st.applied
  {
    assert Receive(cfg, st.outcome.node, NextReady(log, st.applied), w) == Running(st.outcome.node);
  }

  /** What becomes of the next block on a node that runs, without the change and with it. */
  lemma NextAfter(cfg: Config, l0: State, log: seq<Entry>, st: Stage, op: LocalOp, w: World)
    requires Setting(cfg, log) && Safe(cfg, l0, log, st) && st.outcome.Running? && st.applied < |log| && w.replies == []
    ensures var k, l := st.applied, st.outcome.node.ledger;
            var st1 := After(cfg, log, st, Change(op));
            && Allowed(cfg, log, st, Next(log, k, w)) && Allowed(cfg, log, st1, Next(log, k, w))
            && (After(cfg, log, st, Next(log, k, w)).outcome.Running? <==> ReplayEntry(cfg, l, log[k]).Some?)
            && var o := After(cfg, log, st1, Next(log, k, w)).outcome;
              if ReplayEntry(cfg, LocalChange(l, op), log[k]).Some? then o.Running? else o.Halted? && o.at == k
  {
    NextIsAllowed(cfg, l0, log, st, w);
    NextEntry(cfg, log, st.outcome.node, st.applied, w);
    StepKeeps(cfg, l0, log, st, Change(op));
    var st1 := After(cfg, log, st, Change(op));
    NextIsAllowed(cfg, l0, log, st1, w);
    NextEntry(cfg, log, st1.outcome.node, st.applied, w);
  }

  /** A node goes on with a block that the others take exactly if everything in it fits beside the
      change: a lock on one node alone stops it where some transaction no longer does. */
  lemma LockedNodeIff(snapCount: nat, accepts: (State, Block) -> bool, rest: (Amounts, T.KV, Block) -> bool,
                      minaddr: bytes, l0: State, log: seq<Entry>, st: Stage, op: LocalOp, w: World)
    requires snapCount > 0 && WellIndexed(log) && Tests(accepts, rest) && w.replies == []
    requires Safe(NodeConfig(snapCount, accepts, minaddr), l0, log, st) && st.outcome.Running? && st.applied < |log|
    requires var l, e := st.outcome.node.ledger, log[st.applied];
             && Covered(l.balances, l.locks) && !Stale(l, e)
             && ReplayEntry(NodeConfig(snapCount, accepts, minaddr), l, e).Some?
    ensures var cfg, next := NodeConfig(snapCount, accepts, minaddr), Next(log, st.applied, w);
            var st1 := After(cfg, log, st, Change(op));
            && Allowed(cfg, log, st, next) && After(cfg, log, st, next).outcome.Running?
            && Allowed(cfg, log, st1, next)
            && var o := After(cfg, log, st1, next).outcome;
              if AllFit(st.outcome.node.ledger, op, log[st.applied].kind.block) then o.Running?
              else op.Locking? && o.Halted? && o.at == st.applied
  {
    NodesCommitInOrder(snapCount, accepts, minaddr);
    NextAfter(NodeConfig(snapCount, accepts, minaddr), l0, log, st, op, w);
    TakesAfter(snapCount, accepts, rest, minaddr, st.outcome.node.ledger, op, log[st.applied]);
  }
}
