/** The node of raftconsensus/node.go as it runs: its fields, updated in place, over a Blockchain. */
module RaftNodes {
  import opened Bytes
  import opened Options
  import opened Ledger
  import opened Multiples
  import opened RaftSpec
  import T = TokenExec

  /** How a call ends: the node goes on, is down, or has met a block it cannot take. */
  datatype Fate = Alive | Dead | Stopped

  ghost predicate ValidEntries(es: seq<Entry>) {
    forall i :: 0 <= i < |es| && es[i].kind.BlockData? ==> ValidTxs(es[i].kind.block.txs)
  }

  ghost predicate ValidSnapshot(s: Snapshot) {
    s.entries.Some? ==> ValidEntries(s.entries.value)
  }

  ghost predicate ValidReplies(replies: seq<Reply>) {
    forall i :: 0 <= i < |replies| && (replies[i].Reply? || replies[i].Cut?) ==> ValidSnapshot(replies[i].snap)
  }

  lemma {:induction false} StretchIsValid(es: seq<Entry>, lo: nat, hi: nat)
    requires lo <= hi <= |es| && ValidEntries(es)
    ensures ValidEntries(Stretch(es, lo, hi))
  {
    StretchIsSlice(es, lo, hi);
  }

  class RaftNode {
    const snapCount: nat
    const minaddr: bytes
    const accepts: (State, Block) -> bool
    const bc: Blockchain

    var committedIndex: nat
    var snapshotIndex: nat
    var lastHeight: nat
    var storageCommit: nat
    var firstIndex: nat
    var walCommit: nat
    var disk: seq<Snapshot>

    ghost function Cfg(): Config {
      NodeConfig(snapCount, accepts, minaddr)
    }

    ghost function Now(): Node
      reads this, bc
    {
      Node(committedIndex, snapshotIndex, lastHeight, storageCommit, firstIndex, bc.Now(), walCommit, disk)
    }

    ghost predicate Valid()
      reads this, bc
    {
      snapCount > 0 && T.WellStored(bc.cdb)
    }

    /** This node after a call that could end in outcome o. */
    ghost predicate Ends(fate: Fate, o: Outcome)
      reads this, bc
    {
      match o
      case Running(m) => fate == Alive && Now() == m && Valid()
      case Down(m, _) => fate == Dead && Now() == m && Valid()
      case Halted(m, _, _) => fate == Stopped && Now() == m && Valid()
    }

    constructor (snapCount: nat, minaddr: bytes, accepts: (State, Block) -> bool, bc: Blockchain)
      requires snapCount > 0 && T.WellStored(bc.cdb)
      ensures Valid() && this.bc == bc && Cfg() == NodeConfig(snapCount, accepts, minaddr)
      ensures Now() == Node(0, 0, bc.height, 0, 1, bc.Now(), 0, [])
    {
      this.snapCount, this.minaddr, this.accepts, this.bc := snapCount, minaddr, accepts, bc;
      committedIndex, snapshotIndex, lastHeight, storageCommit, firstIndex := 0, 0, bc.height, 0, 1;
      walCommit, disk := 0, [];
    }

    /** False is a panic; the node is then as far as it has come. */
    method CommitEntries(es: seq<Entry>) returns (ok: bool)
      requires Valid() && ValidEntries(es)
      modifies this`committedIndex, this`lastHeight, bc
      ensures Valid()
      ensures var r := RaftSpec.CommitEntries(Cfg(), old(Now()), es);
              ok == r.Some? && Now() == if ok then r.value else Panicked(Cfg(), old(Now()), es).node
    {
      for i := 0 to |es|
        invariant Valid()
        invariant RaftSpec.CommitEntries(Cfg(), old(Now()), es[..i]) == Some(Now())
      {
        assert es[..i + 1][..i] == es[..i];
        var committed := CommitEntry(es[i]);
        if !committed {
          PanicStays(Cfg(), old(Now()), es, i + 1);
          PanickedStays(Cfg(), old(Now()), es, i);
          return false;
        }
      }
      assert es[..|es|] == es;
      return true;
    }

    /** The body of the loop over the entries. */
    method CommitEntry(e: Entry) returns (ok: bool)
      requires Valid() && ValidEntries([e])
      modifies this`committedIndex, this`lastHeight, bc
      ensures Valid()
      ensures var r := ApplyEntry(Cfg(), old(Now()), e);
              ok == r.Some? && Now() == if ok then r.value else PanicAt(Cfg(), old(Now()), e).node
    {
      if e.index <= committedIndex {
        return true;
      }
      match e.kind
      case Undecodable =>
        return true;
      case BlockData(b) =>
        assert [e][0].kind.block == b;
        if b.height <= lastHeight {
          committedIndex := committedIndex + 1;
          return true;
        }
        if b.height - lastHeight != 1 {
          return false;
        }
        if !accepts(State(bc.height, bc.balances, bc.nonces, bc.locks, bc.cdb), b) {
          return false;
        }
        var added := bc.AddBlock(b, minaddr);
        if !added {
          return false;
        }
        lastHeight := b.height;
        committedIndex := e.index;
        return true;
      case _ =>
        committedIndex := e.index;
        return true;
    }

    /** An error is only logged, and leaves everything as it was. */
    method MaybeTriggerSnapshot(log: seq<Entry>, appIndex: nat, saved: bool)
      modifies this`disk, this`snapshotIndex, this`firstIndex
      ensures Now() == TriggerSnapshot(log, old(Now()), appIndex, saved)
    {
      var lo := snapshotIndex;
      if lo + 1 < firstIndex || !(lo <= appIndex <= |log|) {
        return;
      }
      var ents := Stretch(log, lo, appIndex);
      if !saved {
        return;
      }
      disk := disk + [Snapshot(appIndex, Some(ents))];
      firstIndex := appIndex + 1;
      snapshotIndex := appIndex;
    }

    /** The chain of missing snapshots: Alive when the loop is left, Dead on a panic or a crash. */
    method FetchMissing(target: nat, replies: seq<Reply>) returns (fate: Fate)
      requires Valid() && ValidReplies(replies)
      modifies this, bc
      ensures Ends(fate, Chase(Cfg(), old(Now()), target, replies))
    {
      var i := 0;
      MultipleIffNoRemainder(snapshotIndex, snapCount);
      while snapshotIndex + snapCount < target && snapshotIndex % snapCount == 0
        invariant Valid() && i <= |replies|
        invariant Multiple(snapshotIndex, snapCount) <==> snapshotIndex % snapCount == 0
        invariant Chase(Cfg(), Now(), target, replies[i..]) == Chase(Cfg(), old(Now()), target, replies)
        decreases |replies| - i
      {
        if i == |replies| {
          return Dead;
        }
        var r := replies[i];
        assert replies[i..][0] == r && replies[i..][1..] == replies[i + 1..];
        i := i + 1;
        match r
        case Failure =>
          return Dead;
        case Idle =>
        case Garbled =>
          return Alive;
        case Cut(s, crash) =>
          var es := Missing(committedIndex, s);
          if es.Some? {
            fate := CommitThenCrash(s, es.value, crash);
            return;
          }
          return Dead;
        case Reply(s, saved) =>
          var es := Missing(committedIndex, s);
          if es == None {
            return Alive;
          }
          MissingIsValid(committedIndex, s);
          var ok := CommitEntries(es.value);
          if !ok {
            return Stopped;
          }
          if !saved {
            return Alive;
          }
          disk, snapshotIndex, committedIndex := disk + [s], s.index, s.index;
          MultipleIffNoRemainder(snapshotIndex, snapCount);
      }
      return Alive;
    }

    method CommitThenCrash(s: Snapshot, es: seq<Entry>, crash: Crash) returns (fate: Fate)
      requires Valid() && ValidSnapshot(s) && Missing(committedIndex, s) == Some(es)
      modifies this, bc
      ensures Ends(fate, CommitCut(Cfg(), old(Now()), es, crash))
    {
      MissingIsValid(committedIndex, s);
      fate := CommitUntilCrash(es, crash);
    }

    /** Commits entries up to a crash, which can fall in the middle of a block. */
    method CommitUntilCrash(es: seq<Entry>, crash: Crash) returns (fate: Fate)
      requires Valid() && ValidEntries(es)
      modifies this, bc
      ensures Ends(fate, CommitCut(Cfg(), old(Now()), es, crash))
    {
      var k := if crash.entries < |es| then crash.entries else |es|;
      StretchIsValid(es, 0, k);
      var ok := CommitEntries(Prefix(es, crash.entries));
      if !ok {
        return Stopped;
      }
      if k < |es| {
        CrashInEntry(es[k], crash.flushed);
      }
      return Dead;
    }

    method CrashInEntry(e: Entry, flushed: nat)
      requires Valid() && ValidEntries([e])
      modifies bc
      ensures Ends(Dead, CrashAt(Cfg(), old(Now()), e, flushed))
    {
      if e.index > committedIndex && e.kind.BlockData? {
        var b := e.kind.block;
        assert [e][0].kind.block == b;
        if b.height == lastHeight + 1 && accepts(State(bc.height, bc.balances, bc.nonces, bc.locks, bc.cdb), b) {
          bc.CrashInAddBlock(b.txs, flushed);
        }
      }
    }

    method RecoverSnapshotData(s: Snapshot, replies: seq<Reply>, cut: Option<Crash>) returns (fate: Fate)
      requires Valid() && ValidSnapshot(s) && ValidReplies(replies)
      modifies this, bc
      ensures Ends(fate, Recover(Cfg(), old(Now()), s, replies, cut))
    {
      if s.index == 0 || s.index <= committedIndex {
        return Alive;
      }
      if s.entries == None || s.entries.value == [] {
        return Alive;
      }
      var ents := s.entries.value;
      if snapshotIndex >= ents[|ents| - 1].index {
        return Alive;
      }
      committedIndex := storageCommit;
      if committedIndex < ents[0].index && snapshotIndex < ents[0].index {
        fate := FetchMissing(s.index, replies);
        if fate != Alive {
          return;
        }
        if snapshotIndex + snapCount != s.index {
          return Dead;
        }
      }
      fate := TakeNewest(s, cut);
    }

    /** The end of recoverSnapshotData. */
    method TakeNewest(s: Snapshot, cut: Option<Crash>) returns (fate: Fate)
      requires Valid() && ValidSnapshot(s)
      modifies this, bc
      ensures Ends(fate, FinishRecovery(Cfg(), old(Now()), s, cut))
    {
      MultipleIffNoRemainder(snapshotIndex, snapCount);
      if snapshotIndex + snapCount == s.index && snapshotIndex % snapCount == 0 {
        var es := Missing(committedIndex, s);
        if es == None {
          return Alive;
        }
        if cut.Some? {
          fate := CommitThenCrash(s, es.value, cut.value);
          return;
        }
        MissingIsValid(committedIndex, s);
        var ok := CommitEntries(es.value);
        if !ok {
          return Stopped;
        }
        disk, snapshotIndex, committedIndex := disk + [s], s.index, s.index;
      }
      return Alive;
    }

    /** The first part of a Ready. */
    method Receive(rd: Ready, w: World) returns (fate: Fate)
      requires Valid() && (rd.snapshot.Some? ==> ValidSnapshot(rd.snapshot.value)) && ValidReplies(w.replies)
      modifies this, bc
      ensures Ends(fate, RaftSpec.Receive(Cfg(), old(Now()), rd, w))
    {
      fate := Alive;
      if rd.snapshot.Some? && rd.snapshot.value.index != 0 {
        var s := rd.snapshot.value;
        fate := RecoverSnapshotData(s, w.replies, w.cut);
        if fate == Alive && s.index + 1 > firstIndex {
          firstIndex := s.index + 1;
        }
      }
    }

    /** The last part: the hard state, and a snapshot if enough entries have gathered. */
    method Save(log: seq<Entry>, hard: Option<nat>, saved: bool)
      requires Valid()
      modifies this
      ensures Valid() && Now() == MaybeSnapshot(Cfg(), log, SaveHardState(old(Now()), hard), saved)
    {
      if hard.Some? {
        var c := hard.value;
        walCommit := c;
        if committedIndex < c {
          c := committedIndex;
        }
        storageCommit := c;
      }
      if committedIndex > snapshotIndex {
        if committedIndex - snapshotIndex >= snapCount {
          var offset := committedIndex % snapCount;
          MaybeTriggerSnapshot(log, committedIndex - offset, saved);
        }
      }
    }

    /** One Ready of handleChanel. */
    method HandleReady(log: seq<Entry>, rd: Ready, w: World) returns (fate: Fate)
      requires Valid() && ValidEntries(rd.committed)
      requires (rd.snapshot.Some? ==> ValidSnapshot(rd.snapshot.value)) && ValidReplies(w.replies)
      modifies this, bc
      ensures Ends(fate, RaftSpec.HandleReady(Cfg(), log, old(Now()), rd, w))
    {
      fate := Receive(rd, w);
      if fate == Alive {
        var ok := CommitEntries(rd.committed);
        if !ok {
          return Stopped;
        }
        Save(log, rd.hard, w.savedSnapshot);
      }
    }

    /** A Ready during which the node crashes before it saves the log. */
    method CrashInReady(rd: Ready, w: World, crash: Crash) returns (fate: Fate)
      requires Valid() && ValidEntries(rd.committed)
      requires (rd.snapshot.Some? ==> ValidSnapshot(rd.snapshot.value)) && ValidReplies(w.replies)
      modifies this, bc
      ensures Ends(fate, RaftSpec.CrashInReady(Cfg(), old(Now()), rd, w, crash))
    {
      fate := Receive(rd, w);
      if fate == Alive {
        fate := CommitUntilCrash(rd.committed, crash);
      }
    }

    /** The start of a process over the files and the ledger of an earlier one. */
    method Start() returns (fate: Fate)
      requires Valid()
      modifies this
      ensures Ends(fate, Restart(old(Now())))
    {
      var s := if disk == [] then 0 else disk[|disk| - 1].index;
      if walCommit < s {
        return Dead;
      }
      snapshotIndex := s;
      committedIndex := walCommit;
      storageCommit := walCommit;
      firstIndex := s + 1;
      lastHeight := bc.height;
      return Alive;
    }
  }

  lemma MissingIsValid(c: nat, s: Snapshot)
    requires ValidSnapshot(s) && Missing(c, s).Some?
    ensures ValidEntries(Missing(c, s).value)
  {
    var es := s.entries.value;
    StretchIsValid(es, c + 1 - es[0].index, |es|);
  }

  /** The panic is at the first entry that cannot be committed. */
  lemma {:induction false} PanickedStays(cfg: Config, n: Node, es: seq<Entry>, i: nat)
    requires i < |es| && CommitEntries(cfg, n, es[..i]).Some? && CommitEntries(cfg, n, es[..i + 1]) == None
    ensures Panicked(cfg, n, es) == PanicAt(cfg, CommitEntries(cfg, n, es[..i]).value, es[i])
    decreases |es|
  {
    var init := es[..|es| - 1];
    if i < |init| {
      assert init[..i + 1] == es[..i + 1] && init[..i] == es[..i];
      PanicStays(cfg, n, init, i + 1);
      PanickedStays(cfg, n, init, i);
    } else {
      assert es[..i + 1] == es;
    }
  }

  lemma {:induction false} PanicStays(cfg: Config, n: Node, es: seq<Entry>, k: nat)
    requires k <= |es| && CommitEntries(cfg, n, es[..k]) == None
    ensures CommitEntries(cfg, n, es) == None
    decreases |es|
  {
    if k == |es| {
      assert es[..k] == es;
    } else {
      var init := es[..|es| - 1];
      assert init[..k] == es[..k];
      PanicStays(cfg, n, init, k);
    }
  }
}
