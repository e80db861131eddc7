/** What the texts of the token language do to the store, from the bytes in a transaction to what can be
    read afterwards. */
module PrintedScripts {
  import opened Bytes
  import opened Options
  import opened Rewards
  import opened Ledger
  import S = Script
  import X = LexSpec
  import T = TokenExec

  /** Running one command over an empty overlay. */
  lemma OneCall(kv: T.KV, owner: bytes, xs: seq<Option<S.Command>>, c: T.Call)
    requires T.WellStored(kv) && |owner| >= 8 && |xs| == 1 && xs[0].Some? && ToCall(xs[0].value) == Some(c)
    ensures BuildOverlay(kv, owner, map[], xs)
         == match T.Deal(kv, owner, map[], c) case Err => Refused case Ok(mp) => Built(mp)
  {
    T.DealKeepsStored(kv, owner, map[], c);
    assert xs[1..] == [];
  }

  /** What becomes of the store when a transaction with a script is carried out: None where the script is
      refused, which makes Go panic. */
  lemma RunsOneCall(kv: T.KV, t: Transaction, c: T.Call)
    requires T.WellStored(kv) && ValidTx(t) && t.script != [] && |S.Scripts(t.script)| == 1
    requires S.Scripts(t.script)[0].Some? && ToCall(S.Scripts(t.script)[0].value) == Some(c)
    ensures RunScript(kv, t)
         == match T.Deal(kv, t.from, map[], c) case Err => None case Ok(mp) => Some(T.FlushInto(kv, mp))
    ensures ExecNew(kv, t.script, t.from).Refused? <==> T.Deal(kv, t.from, map[], c).Err?
    ensures ExecNew(kv, t.script, t.from).Built? <==> T.Deal(kv, t.from, map[], c).Ok?
  {
    OneCall(kv, t.from, S.Scripts(t.script), c);
  }

  // ---------------------------------------------------------------- transfer

  /** The store after n of a token have moved. */
  function Moved(kv: T.KV, token: bytes, n: uint64, from: bytes, to: bytes): T.KV
    requires T.WellStored(kv) && n <= T.Balance(kv, token, from)
  {
    kv[T.BKey(token, from) := Put64(T.Balance(kv, token, from) - n)]
      [T.BKey(token, to) := Put64(Add64(T.Balance(kv, token, to), n))]
  }

  /** Why the store refuses to move them. */
  predicate CannotMove(kv: T.KV, token: bytes, n: uint64, from: bytes)
    requires T.WellStored(kv)
  {
    T.AKey(token) !in kv || T.Frozen(kv, token, from) || T.Balance(kv, token, from) < n
  }

  lemma TransferStores(kv: T.KV, token: bytes, n: uint64, from: bytes, to: bytes)
    requires T.WellStored(kv) && |from| >= 8
    ensures match T.Deal(kv, from, map[], T.Transfer(token, n, to))
            case Err => CannotMove(kv, token, n, from)
            case Ok(mp) => !CannotMove(kv, token, n, from) && T.FlushInto(kv, mp) == Moved(kv, token, n, from, to)
  {
    T.TransferIs(kv, from, map[], token, n, to);
    if !CannotMove(kv, token, n, from) {
      var k, j := T.BKey(token, from), T.BKey(token, to);
      TwoWritten(kv, k, Put64(T.Balance(kv, token, from) - n), j, Put64(Add64(T.Balance(kv, token, to), n)));
    }
  }

  lemma TwoWritten(kv: T.KV, k: bytes, v: bytes, j: bytes, w: bytes)
    requires k != [] && j != []
    ensures T.FlushInto(kv, map[][k := v][j := w]) == kv[k := v][j := w]
  {
  }

  lemma Reads(n: uint64)
    ensures |Put64(n)| == 8 && T.U64(Put64(n)) == n
  {
    Put64RoundTrip(n);
    assert Put64(n)[..8] == Put64(n);
  }

  lemma SameToken(token: bytes, a: bytes, b: bytes)
    ensures T.BKey(token, a) == T.BKey(token, b) <==> a == b
  {
    var k, j := T.BKey(token, a), T.BKey(token, b);
    assert k[2 + |token|..] == a && j[2 + |token|..] == b;
  }

  /** What can be read afterwards: the sender has n less, the receiver n more; to oneself n more. */
  lemma MovedReads(kv: T.KV, token: bytes, n: uint64, from: bytes, to: bytes)
    requires T.WellStored(kv) && n <= T.Balance(kv, token, from)
    ensures var kv1 := Moved(kv, token, n, from, to);
            && T.WellStored(kv1)
            && T.Balance(kv1, token, to) == Add64(T.Balance(kv, token, to), n)
            && (from != to ==> T.Balance(kv1, token, from) == T.Balance(kv, token, from) - n)
            && forall k :: k != T.BKey(token, from) && k != T.BKey(token, to) ==>
                 (k in kv1 <==> k in kv) && (k in kv ==> kv1[k] == kv[k])
  {
    T.PrefixedKeys(token, from);
    T.PrefixedKeys(token, to);
    SameToken(token, from, to);
    Reads(T.Balance(kv, token, from) - n);
    Reads(Add64(T.Balance(kv, token, to), n));
  }

  /** The text the client prints to transfer, in a transaction: refused - and a panic in a block - exactly
      if there is no such token, or the sender is frozen or has less; otherwise n go from the sender to
      the address printed. */
  lemma PrintedTransfer(kv: T.KV, t: Transaction, token: bytes, n: uint64, to: bytes)
    requires T.WellStored(kv) && ValidTx(t) && X.Quotable(token) && X.Quotable(to)
    requires t.script == S.PrintTransfer(token, n, to)
    ensures RunScript(kv, t)
         == if CannotMove(kv, token, n, t.from) then None else Some(Moved(kv, token, n, t.from, to))
    ensures var r := ExecNew(kv, t.script, t.from);
            if CannotMove(kv, token, n, t.from) then r.Refused? else r.Built?
    ensures !CannotMove(kv, token, n, t.from) && t.from != to ==>
              var kv1 := RunScript(kv, t).value;
              && T.WellStored(kv1)
              && T.Balance(kv1, token, t.from) == T.Balance(kv, token, t.from) - n
              && T.Balance(kv1, token, to) == Add64(T.Balance(kv, token, to), n)
  {
    S.ParsePrintTransfer(token, n, to);
    assert t.script[0] == S.TRANSFER[0];
    RunsOneCall(kv, t, T.Transfer(token, n, to));
    TransferStores(kv, token, n, t.from, to);
    if !CannotMove(kv, token, n, t.from) {
      MovedReads(kv, token, n, t.from, to);
    }
  }

  // ---------------------------------------------------------------- new and mint

  /** A token just created: its owner, no balance yet, the total that was printed, nobody frozen. */
  function Created(kv: T.KV, token: bytes, total: uint64, owner: bytes): T.KV {
    kv[T.AKey(token) := owner][T.BKey(token, owner) := Put64(0)]
      [T.TKey(token, owner) := Put64(total)][T.FKey(token, owner) := [0]]
  }

  /** The text printed to create a token: refused exactly if there is one of this name; otherwise the
      sender owns it from then on - but for the empty name, which the store refuses. */
  lemma PrintedNew(kv: T.KV, t: Transaction, token: bytes, total: uint64)
    requires T.WellStored(kv) && ValidTx(t) && X.Quotable(token) && t.script == S.PrintNew(token, total)
    ensures RunScript(kv, t)
         == if T.AKey(token) in kv then None
            else if token == [] then Some(kv) else Some(Created(kv, token, total, t.from))
    ensures var r := ExecNew(kv, t.script, t.from); if T.AKey(token) in kv then r.Refused? else r.Built?
    ensures T.AKey(token) !in kv && token != [] && T.PlainId(token) ==>
              T.OwnedBy(RunScript(kv, t).value, token, t.from) && !T.Frozen(RunScript(kv, t).value, token, t.from)
  {
    S.ParsePrintNew(token, total);
    assert t.script[0] == S.NEW[0];
    RunsOneCall(kv, t, T.New(token, total));
    NewStores(kv, token, total, t.from);
    if T.AKey(token) !in kv && token != [] && T.PlainId(token) {
      CreatedReads(kv, token, total, t.from);
    }
  }

  lemma NewStores(kv: T.KV, token: bytes, total: uint64, owner: bytes)
    requires T.WellStored(kv) && |owner| >= 8
    ensures match T.Deal(kv, owner, map[], T.New(token, total))
            case Err => T.AKey(token) in kv
            case Ok(mp) =>
              && T.AKey(token) !in kv
              && T.FlushInto(kv, mp) == if token == [] then kv else Created(kv, token, total, owner)
  {
    T.PrefixedKeys(token, owner);
    if T.AKey(token) !in kv {
      FourWritten(kv, T.AKey(token), owner, T.BKey(token, owner), Put64(0), T.TKey(token, owner), Put64(total),
                  T.FKey(token, owner), [0]);
    }
  }

  lemma FourWritten(kv: T.KV, a: bytes, v: bytes, b: bytes, w: bytes, c: bytes, x: bytes, d: bytes, y: bytes)
    requires b != [] && c != [] && d != []
    ensures T.FlushInto(kv, map[][a := v][b := w][c := x][d := y])
         == if a == [] then kv else kv[a := v][b := w][c := x][d := y]
  {
  }

  lemma CreatedReads(kv: T.KV, token: bytes, total: uint64, owner: bytes)
    requires T.PlainId(token)
    ensures T.OwnedBy(Created(kv, token, total, owner), token, owner)
    ensures !T.Frozen(Created(kv, token, total, owner), token, owner)
  {
    T.KeyFamilies(token, owner, token, owner);
  }

  /** The text printed to mint: refused exactly if the sender does not own the token; otherwise it has so
      much more of it. */
  lemma PrintedMint(kv: T.KV, t: Transaction, token: bytes, n: uint64)
    requires T.WellStored(kv) && ValidTx(t) && X.Quotable(token) && t.script == S.PrintMint(token, n)
    ensures RunScript(kv, t)
         == if !T.OwnedBy(kv, token, t.from) then None
            else Some(kv[T.BKey(token, t.from) := Put64(Add64(T.Balance(kv, token, t.from), n))])
    ensures var r := ExecNew(kv, t.script, t.from); if T.OwnedBy(kv, token, t.from) then r.Built? else r.Refused?
    ensures T.OwnedBy(kv, token, t.from) ==>
              var kv1 := RunScript(kv, t).value;
              T.WellStored(kv1) && T.Balance(kv1, token, t.from) == Add64(T.Balance(kv, token, t.from), n)
  {
    S.ParsePrintMint(token, n);
    assert t.script[0] == S.MINT[0];
    RunsOneCall(kv, t, T.Mint(token, n));
    Reads(Add64(T.Balance(kv, token, t.from), n));
    if T.OwnedBy(kv, token, t.from) {
      var k, v := T.BKey(token, t.from), Put64(Add64(T.Balance(kv, token, t.from), n));
      assert T.Deal(kv, t.from, map[], T.Mint(token, n)).value == map[k := v];
      assert kv + map[k := v] == kv[k := v];
    }
  }

  // ---------------------------------------------------------------- freeze and unfreeze

  /** A text that freezes or unfreezes an address: refused exactly if the sender does not own the token;
      otherwise the address is frozen for that token afterwards, or is not, and nothing else changes. */
  lemma FreezeTextRuns(kv: T.KV, t: Transaction, name: bytes, token: bytes, addr: bytes)
    requires T.WellStored(kv) && ValidTx(t) && X.Quotable(token) && X.Quotable(addr)
    requires (name == S.FREEZE || name == S.UNFREEZE) && t.script == S.FreezeText(name, token, addr)
    ensures RunScript(kv, t)
         == if !T.OwnedBy(kv, token, t.from) then None
            else Some(kv[T.FKey(token, addr) := [if name == S.FREEZE then 1 else 0]])
    ensures T.OwnedBy(kv, token, t.from) ==>
              (T.Frozen(RunScript(kv, t).value, token, addr) <==> name == S.FREEZE)
  {
    S.ParseFreezeText(name, token, addr);
    assert t.script[0] == name[0];
    RunsOneCall(kv, t, if name == S.FREEZE then T.Freeze(token, addr) else T.Unfreeze(token, addr));
    FlagStores(kv, t.from, token, addr, name == S.FREEZE);
  }

  lemma FlagStores(kv: T.KV, owner: bytes, token: bytes, addr: bytes, frozen: bool)
    requires T.WellStored(kv) && |owner| >= 8
    ensures match T.Deal(kv, owner, map[], if frozen then T.Freeze(token, addr) else T.Unfreeze(token, addr))
            case Err => !T.OwnedBy(kv, token, owner)
            case Ok(mp) =>
              && T.OwnedBy(kv, token, owner)
              && T.FlushInto(kv, mp) == kv[T.FKey(token, addr) := [if frozen then 1 else 0]]
  {
    if T.OwnedBy(kv, token, owner) {
      OneWritten(kv, T.FKey(token, addr), [if frozen then 1 else 0]);
    }
  }

  lemma OneWritten(kv: T.KV, k: bytes, v: bytes)
    requires k != []
    ensures T.FlushInto(kv, map[][k := v]) == kv[k := v]
  {
  }

  // ---------------------------------------------------------------- texts that are no command

  /** A text that gives no command runs, and does nothing. */
  lemma NoCommandRuns(kv: T.KV, t: Transaction)
    requires T.WellStored(kv) && ValidTx(t) && t.script != [] && S.Scripts(t.script) == []
    ensures RunScript(kv, t) == Some(kv) && ExecNew(kv, t.script, t.from) == Built(map[])
  {
    assert kv + map[] == kv;
  }

  /** For instance, one that begins with a string. */
  lemma StringAlone(kv: T.KV, t: Transaction, text: bytes)
    requires T.WellStored(kv) && ValidTx(t) && X.Quotable(text) && t.script == X.Quote(text)
    ensures RunScript(kv, t) == Some(kv)
  {
    assert X.Quote(text) + [] == X.Quote(text);
    X.ReadQuoted(text, []);
    assert X.Words([]) == Some([]);
    S.WordsStep(t.script, X.StringConstant(text), [], []);
    assert [X.StringConstant(text)] + [] == [X.StringConstant(text)];
    S.ScriptsOfWords(t.script, [X.StringConstant(text)]);
    NoCommandRuns(kv, t);
  }

  /** A registered command without its amount is no script but a nil one, and crashes wherever it is run:
      it can be neither packed nor committed. */
  lemma ShortCommandCrashes(kv: T.KV, t: Transaction, token: bytes)
    requires T.WellStored(kv) && ValidTx(t) && X.Quotable(token)
    requires t.script == S.MINT + ([X.SPACE] + (X.Quote(token) + []))
    ensures ExecNew(kv, t.script, t.from) == Crashed && RunScript(kv, t) == None
  {
    S.CommandNames();
    assert X.Words([]) == Some([]);
    S.WordsQuoted(token, [], []);
    assert [X.StringConstant(token)] + [] == [X.StringConstant(token)];
    S.WordsNamed(S.MINT, [X.SPACE] + (X.Quote(token) + []), [X.StringConstant(token)]);
    var ws := [X.Identifier(S.MINT), X.StringConstant(token)];
    assert [X.Identifier(S.MINT)] + [X.StringConstant(token)] == ws;
    S.ScriptsOfWords(t.script, ws);
    assert S.CommandOf(ws) == None;
    assert t.script[0] == S.MINT[0];
  }
}
