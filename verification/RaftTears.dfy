/** Crashes in the middle of committing a block: scripts flushed before the crash stay in the contract
    store, though the block's payments are lost with it, and run again when the block is handed over
    again. */
module RaftTears {
  import opened Bytes
  import opened Options
  import opened Rewards
  import opened Ledger
  import opened RaftSpec
  import opened RaftSafety
  import S = Script
  import X = LexSpec
  import T = TokenExec

  /** Committing a torn block again gives what committing it once would have, if and only if the block
      still passes and its scripts make the same store of the torn one; or if it cannot be committed
      either way. */
  lemma MendsIff(snapCount: nat, accepts: (State, Block) -> bool, minaddr: bytes, l: State, e: Entry, j: nat)
    requires T.WellStored(l.tokens) && e.kind.BlockData? && ValidTxs(e.kind.block.txs)
    requires e.kind.block.height == l.height + 1 && accepts(l, e.kind.block)
    ensures var b, tokens := e.kind.block, Flushed(l.tokens, e.kind.block.txs, j);
            Mends(NodeConfig(snapCount, accepts, minaddr), l, e, j) <==>
            if accepts(l.(tokens := tokens), b) then RunScripts(tokens, b.txs) == RunScripts(l.tokens, b.txs)
            else RunScripts(l.tokens, b.txs) == None
  {
    var cfg := NodeConfig(snapCount, accepts, minaddr);
    var b, tokens := e.kind.block, Flushed(l.tokens, e.kind.block.txs, j);
    var l1 := l.(tokens := tokens);
    assert cfg.torn(l, b, j) == l1;
    assert cfg.commit(l1, b) == WithBlock(l1, b, minaddr) && cfg.commit(l, b) == WithBlock(l, b, minaddr);
  }

  /** So a node on which block number t.at was torn has, once the entry is handed over again, the
      ledger it would have without the crash, if and only if the block passes again and its scripts
      make the same store of the torn one. */
  lemma RedeliveryIff(snapCount: nat, accepts: (State, Block) -> bool, minaddr: bytes, p: Past, log: seq<Entry>,
                      t: Mark)
    requires t.Tear? && t.at < |log| && MarkedUpTo(p, t.at) && log[t.at].kind.BlockData?
    requires Story(NodeConfig(snapCount, accepts, minaddr), p, log, t.at + 1).Some?
    requires var l := Story(NodeConfig(snapCount, accepts, minaddr), p, log, t.at);
             l.Some? && log[t.at].kind.block.height == l.value.height + 1
    ensures var cfg, b := NodeConfig(snapCount, accepts, minaddr), log[t.at].kind.block;
            var l := Story(cfg, p, log, t.at).value;
            && T.WellStored(l.tokens) && ValidTxs(b.txs)
            && var tokens := Flushed(l.tokens, b.txs, t.flushed);
              Story(cfg, p.(marks := p.marks + [t]), log, t.at + 1) == Story(cfg, p, log, t.at + 1)
              <==> accepts(l.(tokens := tokens), b) && RunScripts(tokens, b.txs) == RunScripts(l.tokens, b.txs)
  {
    var cfg := NodeConfig(snapCount, accepts, minaddr);
    StoryGoesOn(cfg, p, log, t.at);
    TearIff(cfg, p, log, t);
    MendsIff(snapCount, accepts, minaddr, Story(cfg, p, log, t.at).value, log[t.at], t.flushed);
  }

  // ---------------------------------------------------------------- blocks without scripts

  lemma {:induction false} NothingFlushed(kv: T.KV, txs: seq<Transaction>, j: nat)
    requires T.WellStored(kv) && ValidTxs(txs) && forall i :: 0 <= i < |txs| ==> txs[i].script == []
    ensures Flushed(kv, txs, j) == kv
    decreases |txs|
  {
    if j > 0 && txs != [] {
      NothingFlushed(kv, txs[1..], j - 1);
    }
  }

  ghost predicate ScriptFree(log: seq<Entry>) {
    forall i :: 0 <= i < |log| && log[i].kind.BlockData? ==>
      var txs := log[i].kind.block.txs; forall k :: 0 <= k < |txs| ==> txs[k].script == []
  }

  ghost predicate AllTears(marks: seq<Mark>) {
    forall i :: 0 <= i < |marks| ==> marks[i].Tear?
  }

  lemma {:induction false} BareTears(marks: seq<Mark>)
    ensures AllTears(Bare(marks))
    ensures AllTears(marks) ==> Bare(marks) == marks
  {
    if marks != [] {
      var init := marks[..|marks| - 1];
      assert marks == init + [marks[|marks| - 1]];
      BareTears(init);
    }
  }

  lemma {:induction false} NothingMarks(snapCount: nat, accepts: (State, Block) -> bool, minaddr: bytes,
                                        l: State, log: seq<Entry>, k: nat, marks: seq<Mark>)
    requires ScriptFree(log) && k <= |log| && AllTears(marks)
    ensures Marked(NodeConfig(snapCount, accepts, minaddr), l, log, k, marks) == l
  {
    if marks != [] {
      var init, t := marks[..|marks| - 1], marks[|marks| - 1];
      assert t.Tear?;
      assert forall i :: 0 <= i < |init| ==> init[i] == marks[i];
      NothingMarks(snapCount, accepts, minaddr, l, log, k, init);
      if k < |log| && log[k].kind.BlockData? && T.WellStored(l.tokens) && ValidTxs(log[k].kind.block.txs) {
        NothingFlushed(l.tokens, log[k].kind.block.txs, t.flushed);
      }
    }
  }

  lemma {:induction false} ScriptFreeTears(snapCount: nat, accepts: (State, Block) -> bool, minaddr: bytes,
                                           p: Past, log: seq<Entry>, k: nat)
    requires ScriptFree(log) && k <= |log| && AllTears(p.marks)
    ensures var cfg := NodeConfig(snapCount, accepts, minaddr);
            Story(cfg, p, log, k) == Replay(cfg, p.l0, log, k)
  {
    var cfg := NodeConfig(snapCount, accepts, minaddr);
    if k == 0 {
      NothingMarks(snapCount, accepts, minaddr, p.l0, log, 0, p.marks);
    } else {
      ScriptFreeTears(snapCount, accepts, minaddr, p, log, k - 1);
      var r := Replay(cfg, p.l0, log, k - 1);
      if r.Some? && ReplayEntry(cfg, r.value, log[k - 1]).Some? {
        NothingMarks(snapCount, accepts, minaddr, ReplayEntry(cfg, r.value, log[k - 1]).value, log, k, p.marks);
      }
    }
  }

  /** In a log without scripts no crash leaves a mark: without local changes the story is a plain
      replay, whatever crashed; with them it has the same books and the same contract store. */
  lemma ScriptFreeReplay(snapCount: nat, accepts: (State, Block) -> bool, minaddr: bytes,
                         p: Past, log: seq<Entry>, k: nat)
    requires ScriptFree(log) && k <= |log|
    ensures var cfg := NodeConfig(snapCount, accepts, minaddr);
            var r, plain := Story(cfg, p, log, k), Replay(cfg, p.l0, log, k);
            && (AllTears(p.marks) ==> r == plain)
            && (r.Some? && plain.Some? ==> Alike(r.value, plain.value))
  {
    BareTears(p.marks);
    ScriptFreeTears(snapCount, accepts, minaddr, p.(marks := Bare(p.marks)), log, k);
    var cfg := NodeConfig(snapCount, accepts, minaddr);
    if Story(cfg, p, log, k).Some? && Replay(cfg, p.l0, log, k).Some? {
      LocalChangesKeepBooks(snapCount, accepts, minaddr, p, log, k);
    }
  }

  // ---------------------------------------------------------------- a block that mints

  /** The script is one command to mint, as the client prints it. */
  predicate IsMint(script: bytes, id: bytes, amount: uint64) {
    var xs := S.Scripts(script);
    script != [] && |xs| == 1 && xs[0].Some? && ToCall(xs[0].value) == Some(T.Mint(id, amount))
  }

  lemma PrintedMints(id: bytes, amount: uint64)
    requires X.Quotable(id)
    ensures IsMint(S.PrintMint(id, amount), id, amount)
  {
    S.ParsePrintMint(id, amount);
    assert S.PrintMint(id, amount)[0] == S.MINT[0];
  }

  function MintedStore(kv: T.KV, id: bytes, from: bytes, amount: uint64): T.KV
    requires T.WellStored(kv)
  {
    kv[T.BKey(id, from) := Put64(Add64(T.Balance(kv, id, from), amount))]
  }

  lemma MintBuilt(kv: T.KV, owner: bytes, xs: seq<Option<S.Command>>, id: bytes, amount: uint64)
    requires T.WellStored(kv) && |owner| >= 8 && T.OwnedBy(kv, id, owner)
    requires |xs| == 1 && xs[0].Some? && ToCall(xs[0].value) == Some(T.Mint(id, amount))
    ensures var r := BuildOverlay(kv, owner, map[], xs); r.Built? && kv + r.mp == MintedStore(kv, id, owner, amount)
  {
    T.DealKeepsStored(kv, owner, map[], T.Mint(id, amount));
    var mp := T.Deal(kv, owner, map[], T.Mint(id, amount)).value;
    assert xs[1..] == [];
    assert BuildOverlay(kv, owner, mp, []) == Built(mp);
    assert mp == map[T.BKey(id, owner) := Put64(Add64(T.Balance(kv, id, owner), amount))];
  }

  lemma MintRuns(kv: T.KV, t: Transaction, id: bytes, amount: uint64)
    requires T.WellStored(kv) && ValidTx(t) && IsMint(t.script, id, amount) && T.OwnedBy(kv, id, t.from)
    ensures RunScript(kv, t) == Some(MintedStore(kv, id, t.from, amount))
  {
    MintBuilt(kv, t.from, S.Scripts(t.script), id, amount);
  }

  lemma MintedReads(kv: T.KV, id: bytes, from: bytes, amount: uint64)
    requires T.WellStored(kv) && T.PlainId(id) && T.OwnedBy(kv, id, from)
    ensures var kv1 := MintedStore(kv, id, from, amount);
            && T.WellStored(kv1) && T.OwnedBy(kv1, id, from)
            && T.Balance(kv1, id, from) == Add64(T.Balance(kv, id, from), amount)
  {
    var n := Add64(T.Balance(kv, id, from), amount);
    T.PrefixedKeys(id, from);
    Put64RoundTrip(n);
    assert Put64(n)[..8] == Put64(n);
  }

  lemma RunsOne(kv: T.KV, t: Transaction)
    requires T.WellStored(kv) && ValidTx(t)
    ensures ValidTxs([t]) && RunScripts(kv, [t]) == RunScript(kv, t)
    ensures RunScript(kv, t).Some? ==> Flushed(kv, [t], 1) == RunScript(kv, t).value
  {
    assert [t][..0] == [] && [t][1..] == [];
    assert RunScripts(kv, [t][..0]) == Some(kv);
  }

  /** The stores after minting once and twice. */
  lemma MintTwice(kv: T.KV, t: Transaction, id: bytes, amount: uint64)
    requires T.WellStored(kv) && ValidTx(t) && IsMint(t.script, id, amount)
    requires T.PlainId(id) && T.OwnedBy(kv, id, t.from)
    ensures ValidTxs([t]) && RunScripts(kv, [t]).Some?
    ensures var once, torn := RunScripts(kv, [t]).value, Flushed(kv, [t], 1);
            && once == torn && RunScripts(torn, [t]).Some?
            && var twice := RunScripts(torn, [t]).value; var had := T.Balance(kv, id, t.from);
              && T.Balance(once, id, t.from) == Add64(had, amount)
              && T.Balance(twice, id, t.from) == Add64(Add64(had, amount), amount)
  {
    var kv1 := MintedStore(kv, id, t.from, amount);
    MintedReads(kv, id, t.from, amount);
    RunsOne(kv, t);
    MintRuns(kv, t, id, amount);
    MintOnTop(kv1, t, id, amount);
  }

  lemma MintOnTop(kv: T.KV, t: Transaction, id: bytes, amount: uint64)
    requires T.WellStored(kv) && ValidTx(t) && IsMint(t.script, id, amount)
    requires T.PlainId(id) && T.OwnedBy(kv, id, t.from)
    ensures ValidTxs([t]) && RunScripts(kv, [t]).Some?
    ensures T.Balance(RunScripts(kv, [t]).value, id, t.from) == Add64(T.Balance(kv, id, t.from), amount)
  {
    MintedReads(kv, id, t.from, amount);
    RunsOne(kv, t);
    MintRuns(kv, t, id, amount);
  }

  /** A block that mints does not mend: torn by a crash and committed again, it mints twice - or no
      longer passes, and stops the node on a log that could be replayed. */
  lemma MintCountsTwice(snapCount: nat, accepts: (State, Block) -> bool, minaddr: bytes,
                        l: State, e: Entry, t: Transaction, id: bytes, amount: uint64)
    requires T.WellStored(l.tokens) && ValidTx(t) && e.kind.BlockData? && e.kind.block.txs == [t]
    requires e.kind.block.height == l.height + 1 && accepts(l, e.kind.block)
    requires IsMint(t.script, id, amount) && T.PlainId(id) && T.OwnedBy(l.tokens, id, t.from) && amount > 0
    ensures ReplayEntry(NodeConfig(snapCount, accepts, minaddr), l, e).Some?
    ensures !Mends(NodeConfig(snapCount, accepts, minaddr), l, e, 1)
  {
    MintTwice(l.tokens, t, id, amount);
    AddsMore(T.Balance(l.tokens, id, t.from), amount);
    MendsIff(snapCount, accepts, minaddr, l, e, 1);
  }

  lemma AddsMore(x: uint64, n: uint64)
    requires n > 0
    ensures Add64(Add64(x, n), n) != Add64(x, n)
  {
  }
}
