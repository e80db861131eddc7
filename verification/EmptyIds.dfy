/** Tokens with the empty id: the executor accepts them, but no root can be taken of what it has to
    write then, and the store refuses it. */
module EmptyIds {
  import opened Bytes
  import opened Options
  import opened Rewards
  import opened Ledger
  import opened TxPool
  import opened PackingRules
  import S = Script
  import T = TokenExec

  /** The calls of a parsed list, as far as it consists of calls. */
  function AllCalls(xs: seq<Option<S.Command>>): seq<T.Call> {
    if xs == [] || xs[0] == None || ToCall(xs[0].value) == None then []
    else [ToCall(xs[0].value).value] + AllCalls(xs[1..])
  }

  lemma {:induction false} BuiltIsOverlay(kv: T.KV, owner: bytes, mp: T.KV, xs: seq<Option<S.Command>>)
    requires T.WellStored(kv) && T.WellStored(mp) && |owner| >= 8 && BuildOverlay(kv, owner, mp, xs).Built?
    ensures T.Overlay(kv, owner, mp, AllCalls(xs)) == Ok(BuildOverlay(kv, owner, mp, xs).mp)
    ensures |AllCalls(xs)| == |xs|
    decreases |xs|
  {
    if xs != [] {
      var c := ToCall(xs[0].value).value;
      T.DealKeepsStored(kv, owner, mp, c);
      BuiltIsOverlay(kv, owner, T.Deal(kv, owner, mp, c).value, xs[1..]);
      assert AllCalls(xs)[1..] == AllCalls(xs[1..]);
    }
  }

  /** Of a script that is built, no root can be taken if and only if one of its commands creates a token
      with the empty id; and then, and only then, flushing it writes nothing. */
  lemma RootlessIff(kv: T.KV, script: bytes, owner: bytes)
    requires T.WellStored(kv) && |owner| >= 8 && ExecNew(kv, script, owner).Built?
    ensures var mp := ExecNew(kv, script, owner).mp;
            && (T.Rootless(mp) <==> T.CreatesEmpty(AllCalls(S.Scripts(script))))
            && T.FlushInto(kv, mp) == if T.CreatesEmpty(AllCalls(S.Scripts(script))) then kv else kv + mp
  {
    BuiltIsOverlay(kv, owner, map[], S.Scripts(script));
    T.EmptyKeyIff(kv, owner, map[], AllCalls(S.Scripts(script)));
  }

  /** So packing panics on a transaction exactly if its script has a nil command, before any that fails,
      or is built and creates a token with the empty id. */
  lemma PackPanicsIff(st: State, p: Packing, t: Transaction, n: uint64)
    requires T.WellStored(st.tokens) && ValidTx(t) && t.from in p.balance
    ensures PackTx(st, p, t, n) == None <==>
            && t.script != []
            && var r := ExecNew(st.tokens, t.script, t.from);
              r.Crashed? || (r.Built? && T.CreatesEmpty(AllCalls(S.Scripts(t.script))))
  {
    if ExecNew(st.tokens, t.script, t.from).Built? {
      RootlessIff(st.tokens, t.script, t.from);
    }
  }

  lemma NewCommand(total: uint64)
    ensures S.Scripts(S.PrintNew([], total)) == [Some(S.Command(S.NEW, [S.Argument(S.TOKENID, S.Text([])),
                                                                       S.Argument(S.AMOUNT, S.Number(total))]))]
    ensures S.PrintNew([], total) != [] && AllCalls(S.Scripts(S.PrintNew([], total))) == [T.New([], total)]
  {
    S.ParsePrintNew([], total);
    var xs := S.Scripts(S.PrintNew([], total));
    assert xs[1..] == [] && ToCall(xs[0].value) == Some(T.New([], total));
    assert S.PrintNew([], total)[0] == S.NEW[0];
  }

  lemma NewIsBuilt(kv: T.KV, owner: bytes, total: uint64)
    requires T.WellStored(kv) && |owner| >= 8 && [] !in kv
    ensures ExecNew(kv, S.PrintNew([], total), owner).Built?
  {
    NewCommand(total);
    OneNewBuilt(kv, owner, S.Scripts(S.PrintNew([], total)), total);
  }

  lemma OneNewBuilt(kv: T.KV, owner: bytes, xs: seq<Option<S.Command>>, total: uint64)
    requires T.WellStored(kv) && |owner| >= 8 && [] !in kv
    requires |xs| == 1 && xs[0].Some? && AllCalls(xs) == [T.New([], total)]
    ensures BuildOverlay(kv, owner, map[], xs).Built?
  {
    assert ToCall(xs[0].value) == Some(T.New([], total)) by {
      assert AllCalls(xs)[0] == T.New([], total);
    }
    T.DealKeepsStored(kv, owner, map[], T.New([], total));
    var mp := T.Deal(kv, owner, map[], T.New([], total)).value;
    assert xs[1..] == [];
    assert BuildOverlay(kv, owner, mp, []) == Built(mp);
  }

  /** An admitted transaction with the text the client prints for an empty symbol: the leader panics
      when it packs it. */
  lemma EmptySymbolPanics(st: State, t: Transaction, total: uint64)
    requires Healthy(st) && ValidTx(t) && [] !in st.tokens && t.script == S.PrintNew([], total)
    requires Admits(st, t, true, true) && t.nonce == NonceOf(st.nonces, t.from)
    ensures ValidTxs([t]) && PackAll(st, EMPTY, [t]) == None
    ensures RunScript(st.tokens, t) == Some(st.tokens)
  {
    NewIsBuilt(st.tokens, t.from, total);
    NewCommand(total);
    RootlessIff(st.tokens, t.script, t.from);
    AdmittedIsSmall(st, t, true, true);
    FreeIs(st, t.from);
    assert AllCalls(S.Scripts(t.script))[0].New?;
    assert [t][..0] == [];
    assert PackAll(st, EMPTY, [t][..0]) == Some(EMPTY);
    var noted := EMPTY.(balance := EMPTY.balance[t.from := Free(st, t.from)]);
    assert PackAll(st, EMPTY, [t]) == Decide(st, noted, t, t.nonce);
  }
}
