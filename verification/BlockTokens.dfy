/** From the log to the tokens: what the contract store of a node holds is what the scripts of its blocks
    do, run one after the other. */
module BlockTokens {
  import opened Bytes
  import opened Options
  import opened Rewards
  import opened Ledger
  import opened EmptyIds
  import opened RaftSpec
  import opened RaftSafety
  import opened RaftStore
  import M = Merkle
  import S = Script
  import T = TokenExec
  import R = TokenRuns

  /** A transaction as the token executor sees it. */
  function TxOf(t: Transaction): R.Tx {
    R.Tx(t.from, if t.script == [] then [] else AllCalls(S.Scripts(t.script)))
  }

  function TxsOf(txs: seq<Transaction>): (r: seq<R.Tx>)
    ensures |r| == |txs|
  {
    if txs == [] then [] else TxsOf(txs[..|txs| - 1]) + [TxOf(txs[|txs| - 1])]
  }

  /** Receivers are addresses, and token ids no keys of the store. */
  ghost predicate AllRegular(txs: seq<R.Tx>) {
    forall i :: 0 <= i < |txs| ==> R.Regular(txs[i])
  }

  lemma ScriptExecutes(kv: T.KV, t: Transaction)
    requires T.WellStored(kv) && ValidTx(t) && RunScript(kv, t).Some?
    ensures RunScript(kv, t) == Some(T.Execute(kv, t.from, TxOf(t).cs))
  {
    if t.script == [] {
      assert kv + map[] == kv;
    } else {
      BuiltIsOverlay(kv, t.from, map[], S.Scripts(t.script));
    }
  }

  lemma {:induction false} RunWith(kv: T.KV, txs: seq<R.Tx>, t: R.Tx)
    requires T.WellStored(kv) && AllRegular(txs) && R.Regular(t)
    ensures AllRegular(txs + [t]) && T.WellStored(R.Run(kv, txs))
    ensures R.Run(kv, txs + [t]) == T.Execute(R.Run(kv, txs), t.executor, t.cs)
    decreases |txs|
  {
    if txs == [] {
      assert ([] + [t])[1..] == [];
      R.ExecuteKeepsStored(kv, t.executor, t.cs);
      assert R.Run(T.Execute(kv, t.executor, t.cs), []) == T.Execute(kv, t.executor, t.cs);
    } else {
      R.ExecuteKeepsStored(kv, txs[0].executor, txs[0].cs);
      assert (txs + [t])[1..] == txs[1..] + [t] && (txs + [t])[0] == txs[0];
      RunWith(T.Execute(kv, txs[0].executor, txs[0].cs), txs[1..], t);
    }
  }

  lemma {:induction false} RunJoined(kv: T.KV, a: seq<R.Tx>, b: seq<R.Tx>)
    requires T.WellStored(kv) && AllRegular(a) && AllRegular(b)
    ensures AllRegular(a + b) && T.WellStored(R.Run(kv, a)) && R.Run(kv, a + b) == R.Run(R.Run(kv, a), b)
    decreases |a|
  {
    if a == [] {
      assert [] + b == b;
    } else {
      R.ExecuteKeepsStored(kv, a[0].executor, a[0].cs);
      assert (a + b)[1..] == a[1..] + b && (a + b)[0] == a[0];
      RunJoined(T.Execute(kv, a[0].executor, a[0].cs), a[1..], b);
    }
  }

  lemma RegularParts(a: seq<R.Tx>, b: seq<R.Tx>)
    requires AllRegular(a + b)
    ensures AllRegular(a) && AllRegular(b)
  {
    assert forall i :: 0 <= i < |a| ==> (a + b)[i] == a[i];
    assert forall i :: 0 <= i < |b| ==> (a + b)[|a| + i] == b[i];
  }

  /** The scripts of a block are a run of token transactions. */
  lemma {:induction false} BlockRuns(kv: T.KV, txs: seq<Transaction>)
    requires T.WellStored(kv) && ValidTxs(txs) && AllRegular(TxsOf(txs)) && RunScripts(kv, txs).Some?
    ensures RunScripts(kv, txs) == Some(R.Run(kv, TxsOf(txs)))
  {
    if txs != [] {
      var init, t := txs[..|txs| - 1], txs[|txs| - 1];
      RegularParts(TxsOf(init), [TxOf(t)]);
      assert R.Regular([TxOf(t)][0]);
      BlockRuns(kv, init);
      ScriptExecutes(RunScripts(kv, init).value, t);
      RunWith(kv, TxsOf(init), TxOf(t));
    }
  }

  /** All token transactions of some blocks, in order. */
  function TokenTxs(bs: seq<Block>): seq<R.Tx> {
    if bs == [] then [] else TokenTxs(bs[..|bs| - 1]) + TxsOf(bs[|bs| - 1].txs)
  }

  lemma {:induction false} BlocksRun(snapCount: nat, accepts: (State, Block) -> bool, minaddr: bytes,
                                     l0: State, bs: seq<Block>)
    requires T.WellStored(l0.tokens) && AllRegular(TokenTxs(bs))
    requires CommitAll(NodeConfig(snapCount, accepts, minaddr), l0, bs).Some?
    ensures CommitAll(NodeConfig(snapCount, accepts, minaddr), l0, bs).value.tokens == R.Run(l0.tokens, TokenTxs(bs))
  {
    if bs != [] {
      var init, b := bs[..|bs| - 1], bs[|bs| - 1];
      RegularParts(TokenTxs(init), TxsOf(b.txs));
      BlocksRun(snapCount, accepts, minaddr, l0, init);
      BlockRuns(R.Run(l0.tokens, TokenTxs(init)), b.txs);
      RunJoined(l0.tokens, TokenTxs(init), TxsOf(b.txs));
    }
  }

  /** Over every run of a node that tests the roots - with crashes in the middle of blocks, panics, restarts,
      recoveries and local changes -, as long as no crash has just torn the next block: its contract store
      is what the token scripts of its blocks make of the first store, each run once and in order. */
  lemma NodeTokens(h: M.Hash, size: nat, snapCount: nat, accepts: (State, Block) -> bool, minaddr: bytes,
                   l0: State, log: seq<Entry>, steps: seq<Step>)
    requires snapCount > 0 && WellIndexed(log) && TestsRoots(h, size, accepts, log) && T.WellStored(l0.tokens)
    requires IsRun(NodeConfig(snapCount, accepts, minaddr), log, Fresh(l0), steps)
    requires var cfg := NodeConfig(snapCount, accepts, minaddr);
             var st := RunFrom(cfg, log, Fresh(l0), steps);
             var p := PastAfter(Past(l0, st.marks), st.outcome);
             && st.applied <= |log| && NoTearAt(p.marks, st.applied)
             && AllRegular(TokenTxs(AppliedBlocks(cfg, p, log, st.applied)))
    ensures var cfg := NodeConfig(snapCount, accepts, minaddr);
            var st := RunFrom(cfg, log, Fresh(l0), steps);
            var p := PastAfter(Past(l0, st.marks), st.outcome);
            st.outcome.node.ledger.tokens == R.Run(l0.tokens, TokenTxs(AppliedBlocks(cfg, p, log, st.applied)))
  {
    StoreIsRight(h, size, snapCount, accepts, minaddr, l0, log, steps);
    var cfg := NodeConfig(snapCount, accepts, minaddr);
    var st := RunFrom(cfg, log, Fresh(l0), steps);
    var p := PastAfter(Past(l0, st.marks), st.outcome);
    BlocksRun(snapCount, accepts, minaddr, l0, AppliedBlocks(cfg, p, log, st.applied));
  }

  ghost predicate MintsFit(kv: T.KV, txs: seq<R.Tx>)
    requires T.WellStored(kv) && AllRegular(txs)
  {
    forall id :: T.PlainId(id) ==> R.Supply(kv, id) + R.MintedByRun(kv, txs, id) < TWO_64
  }

  /** So the balances of each token on such a node sum to what they summed to at first and what the mint
      commands in its blocks have added, if nobody transfers to himself. */
  lemma NodeSupply(h: M.Hash, size: nat, snapCount: nat, accepts: (State, Block) -> bool, minaddr: bytes,
                   l0: State, log: seq<Entry>, steps: seq<Step>, id: bytes)
    requires snapCount > 0 && WellIndexed(log) && TestsRoots(h, size, accepts, log) && R.Wired(l0.tokens)
    requires T.PlainId(id)
    requires IsRun(NodeConfig(snapCount, accepts, minaddr), log, Fresh(l0), steps)
    requires var cfg := NodeConfig(snapCount, accepts, minaddr);
             var st := RunFrom(cfg, log, Fresh(l0), steps);
             var p := PastAfter(Past(l0, st.marks), st.outcome);
             && st.applied <= |log| && NoTearAt(p.marks, st.applied)
             && var txs := TokenTxs(AppliedBlocks(cfg, p, log, st.applied));
               && AllRegular(txs) && MintsFit(l0.tokens, txs)
               && forall i :: 0 <= i < |txs| ==> R.NoSelfTransfer(txs[i].executor, txs[i].cs)
    ensures var cfg := NodeConfig(snapCount, accepts, minaddr);
            var st := RunFrom(cfg, log, Fresh(l0), steps);
            var p := PastAfter(Past(l0, st.marks), st.outcome);
            var kv := st.outcome.node.ledger.tokens;
            && T.WellStored(kv)
            && R.Supply(kv, id) == R.Supply(l0.tokens, id)
                                   + R.MintedByRun(l0.tokens, TokenTxs(AppliedBlocks(cfg, p, log, st.applied)), id)
  {
    NodeTokens(h, size, snapCount, accepts, minaddr, l0, log, steps);
    var cfg := NodeConfig(snapCount, accepts, minaddr);
    var st := RunFrom(cfg, log, Fresh(l0), steps);
    var p := PastAfter(Past(l0, st.marks), st.outcome);
    R.SupplyIsMinted(l0.tokens, TokenTxs(AppliedBlocks(cfg, p, log, st.applied)));
  }
}
