/** Commands of the token language: from call nodes to scripts (contract/parser/operate.go),
    and the texts printed by the RPC entry points (rpcclient/rpcclient.go). */
module Script {
  import opened Bytes
  import opened Options
  import opened LexSpec
  import opened ParseSpec
  import SP = ScriptParser

  const ORDER := 0
  const AMOUNT := 1
  const ADDRESS := 2
  const TOKENID := 3
  const PERCENTAGE := 4

  const NEW: bytes := [110, 101, 119]
  const MINT: bytes := [109, 105, 110, 116]
  const TRANSFER: bytes := [116, 114, 97, 110, 115, 102, 101, 114]
  const FREEZE: bytes := [102, 114, 101, 101, 122, 101]
  const UNFREEZE: bytes := [117, 110, 102, 114, 101, 101, 122, 101]

  datatype Value = Number(n: uint64) | Text(t: bytes)

  datatype Argument = Argument(typ: nat, value: Value)

  datatype Command = Command(name: bytes, args: seq<Argument>)

  /** The argument types each registered command takes, in order; no command has none. */
  function Signature(name: bytes): seq<nat> {
    if name == NEW || name == MINT then [TOKENID, AMOUNT]
    else if name == TRANSFER then [TOKENID, AMOUNT, ADDRESS]
    else if name == FREEZE || name == UNFREEZE then [TOKENID, ADDRESS]
    else []
  }

  predicate Registered(name: bytes) {
    Signature(name) != []
  }

  function ArgumentValue(np: Node): Node {
    if np.ListNode? then np.left else np
  }

  function NextArgument(np: Node): Option<Node> {
    if np.ListNode? then Some(np.right) else None
  }

  /** takeArgument: typList maps AMOUNT and PERCENTAGE to integers, the other types to strings. */
  function TakeArgument(typ: nat, np: Node): Option<Argument> {
    match ArgumentValue(np)
    case IntNode(n) => if typ == AMOUNT || typ == PERCENTAGE then Some(Argument(typ, Number(n))) else None
    case StringNode(t) => if typ == AMOUNT || typ == PERCENTAGE then None else Some(Argument(typ, Text(t)))
    case _ => None
  }

  /** The steps operate0 to operate4 have in common: one argument after the other is taken. */
  function TakeArguments(types: seq<nat>, np: Option<Node>): Option<seq<Argument>>
    decreases |types|
  {
    if types == [] then Some([])
    else match np
      case None => None
      case Some(n) =>
        match TakeArgument(types[0], n)
        case None => None
        case Some(a) =>
          match TakeArguments(types[1..], NextArgument(n))
          case None => None
          case Some(rest) => Some([a] + rest)
  }

  /** One registered operation applied to an argument list; None is Go's nil script. */
  function Operate(name: bytes, args: Option<Node>): Option<Command> {
    match TakeArguments(Signature(name), args)
    case None => None
    case Some(as_) => Some(Command(name, as_))
  }

  /** Parser's loop over the calls, which always reads the first one. */
  function Operations(ns: seq<Node>, count: nat): Option<seq<Option<Command>>>
    requires count <= |ns| && forall i :: 0 <= i < |ns| ==> ns[i].CallNode?
  {
    if count == 0 then Some([])
    else if !Registered(ns[0].name) then None
    else match Operations(ns, count - 1)
      case None => None
      case Some(xs) => Some(xs + [Operate(ns[0].name, ns[0].args)])
  }

  lemma {:induction false} CallsAreCallNodes(p: PState)
    ensures Calls(p).Ok? ==> forall i :: 0 <= i < |Calls(p).value| ==> Calls(p).value[i].CallNode?
    decreases Size(p)
  {
    var (w, q) := Peek(p);
    if w.Some? && w.value.Identifier? {
      NextCall(p);
      var (n, q1) := FunctionCall(q);
      if n.Ok? {
        CallsAreCallNodes(q1);
      }
    } else if w.None? {
      EndOfCalls(p);
    } else {
      NoCall(p);
    }
  }

  /** Parser: the scripts of a text, nothing at all if it does not parse. */
  function Scripts(data: bytes): seq<Option<Command>> {
    match Calls(PState(None, data))
    case Err => []
    case Ok(ns) =>
      CallsAreCallNodes(PState(None, data));
      match Operations(ns, |ns|)
      case None => []
      case Some(xs) => xs
  }

  method Parser(data: bytes) returns (xs: seq<Option<Command>>)
    ensures xs == Scripts(data)
  {
    CallsAreCallNodes(PState(None, data));
    var wp := new SP.Parser(data);
    var ok := wp.Parse();
    if !ok {
      return [];
    }
    xs := RunOperations(wp.ns);
  }

  /** The loop over the calls; an unregistered name discards everything. */
  method RunOperations(ns: seq<Node>) returns (xs: seq<Option<Command>>)
    requires forall i :: 0 <= i < |ns| ==> ns[i].CallNode?
    ensures xs == match Operations(ns, |ns|) case None => [] case Some(ys) => ys
  {
    xs := [];
    for i := 0 to |ns|
      invariant Operations(ns, i) == Some(xs)
    {
      var name := ns[0].name;
      if !Registered(name) {
        UnregisteredFails(ns, |ns|);
        return [];
      }
      xs := xs + [Operate(name, ns[0].args)];
    }
  }

  lemma {:induction false} UnregisteredFails(ns: seq<Node>, count: nat)
    requires 0 < count <= |ns| && forall i :: 0 <= i < |ns| ==> ns[i].CallNode?
    requires !Registered(ns[0].name)
    ensures Operations(ns, count) == None
  {
  }

  // ---------------------------------------------------------------- what parses to what

  predicate Fits(typ: nat, w: Word) {
    if typ == AMOUNT || typ == PERCENTAGE then w.IntConstant? else w.StringConstant?
  }

  function WordValue(w: Word): Value
    requires !w.Identifier?
  {
    if w.IntConstant? then Number(w.number) else Text(w.text)
  }

  /** Arguments are taken exactly when there are enough and each of them fits; more are ignored. */
  lemma {:induction false} TakeArgumentsIff(types: seq<nat>, ws: seq<Word>)
    requires ws != [] && IsConstants(ws)
    ensures TakeArguments(types, Some(ArgumentNode(ws))).Some?
       <==> |types| <= |ws| && forall i :: 0 <= i < |types| ==> Fits(types[i], ws[i])
    ensures TakeArguments(types, Some(ArgumentNode(ws))).Some? && |types| <= |ws| ==>
              TakeArguments(types, Some(ArgumentNode(ws))).value
              == seq(|types|, i requires 0 <= i < |types| => Argument(types[i], WordValue(ws[i])))
    decreases |types|
  {
    if types != [] {
      var n := ArgumentNode(ws);
      var rest := types[1..];
      assert TakeArgument(types[0], n) ==
             if Fits(types[0], ws[0]) then Some(Argument(types[0], WordValue(ws[0]))) else None;
      assert forall i :: 0 <= i < |rest| ==> rest[i] == types[i + 1];
      if |ws| == 1 {
        assert NextArgument(n) == None;
        assert TakeArguments(rest, None).Some? <==> rest == [];
      } else {
        assert NextArgument(n) == Some(ArgumentNode(ws[1..]));
        TakeArgumentsIff(rest, ws[1..]);
        assert forall i :: 0 <= i < |rest| && i + 1 < |ws| ==>
                 (Fits(rest[i], ws[1..][i]) <==> Fits(types[i + 1], ws[i + 1]));
        if |types| <= |ws| && forall i :: 0 <= i < |types| ==> Fits(types[i], ws[i]) {
          assert forall i :: 0 <= i < |rest| ==> Fits(rest[i], ws[1..][i]);
        }
        if TakeArguments(types, Some(n)).Some? {
          assert forall i :: 1 <= i < |types| ==> Fits(rest[i - 1], ws[1..][i - 1]) && Fits(types[i], ws[i]);
        }
      }
    }
  }

  /** The command of a name and its constants, nil if the first ones do not fit its signature. */
  function CommandOf(ws: seq<Word>): Option<Command>
    requires IsCall(ws)
  {
    var types := Signature(ws[0].name);
    if |types| < |ws| && forall i :: 0 <= i < |types| ==> Fits(types[i], ws[i + 1]) then
      Some(Command(ws[0].name, seq(|types|, i requires 0 <= i < |types| => Argument(types[i], WordValue(ws[i + 1])))))
    else None
  }

  lemma OperateIs(ws: seq<Word>)
    requires IsCall(ws) && Registered(ws[0].name)
    ensures Operate(ws[0].name, CallOf(ws).args) == CommandOf(ws)
  {
    var types, op := Signature(ws[0].name), Operate(ws[0].name, CallOf(ws).args);
    if |ws| > 1 {
      TakeArgumentsIff(types, ws[1..]);
      assert forall i :: 0 <= i < |types| && i + 1 < |ws| ==> ws[1..][i] == ws[i + 1];
      if op.Some? {
        assert op.value.args
            == seq(|types|, i requires 0 <= i < |types| => Argument(types[i], WordValue(ws[i + 1])));
      }
    }
  }

  /** n times the same. */
  function Copies(c: Option<Command>, n: nat): (xs: seq<Option<Command>>)
    ensures |xs| == n && forall i :: 0 <= i < n ==> xs[i] == c
  {
    if n == 0 then [] else Copies(c, n - 1) + [c]
  }

  lemma {:induction false} OperationsAre(ns: seq<Node>, count: nat)
    requires 0 < count <= |ns| && forall i :: 0 <= i < |ns| ==> ns[i].CallNode?
    ensures Operations(ns, count) ==
            if Registered(ns[0].name) then Some(Copies(Operate(ns[0].name, ns[0].args), count)) else None
  {
    if count > 1 {
      OperationsAre(ns, count - 1);
    } else {
      assert Operations(ns, 0) == Some([]);
    }
  }

  /** The whole front end, on every text: nothing if it does not parse or its first name is not
      registered; else the command of the first call, or a nil one, once for each call. */
  lemma ScriptsIff(data: bytes)
    ensures var ws := Front(Symbols(data));
            Scripts(data) == match CallsOf(Symbols(data))
                             case Err => []
                             case Ok(ns) => if !IsCall(ws) || !Registered(ws[0].name) then []
                                            else Copies(CommandOf(ws), |ns|)
  {
    var xs := Symbols(data);
    CallsAccept(PState(None, data), xs);
    CallsAreCallNodes(PState(None, data));
    if CallsOf(xs).Ok? && Front(xs) != [] {
      var ns := CallsOf(xs).value;
      assert ns[0] == CallOf(Front(xs));
      OperationsAre(ns, |ns|);
      if Registered(Front(xs)[0].name) {
        OperateIs(Front(xs));
      }
    } else if CallsOf(xs).Ok? {
      assert Operations([], 0) == Some([]);
    }
  }

  /** On texts without lexical errors that is at most one command. */
  lemma ScriptsOfWords(data: bytes, ws: seq<Word>)
    requires Words(data) == Some(ws)
    ensures Scripts(data) == if !IsCall(ws) || !Registered(ws[0].name) then [] else [CommandOf(ws)]
  {
    SymbolsAreWords(data);
    FrontOfWhole(ws);
    ScriptsIff(data);
    if IsCall(ws) {
      assert CallsOf([]) == Ok([]) && [CallOf(ws)] + [] == [CallOf(ws)];
      assert CallsOf(Whole(ws)) == Ok([CallOf(ws)]);
      assert Copies(CommandOf(ws), 1) == Copies(CommandOf(ws), 0) + [CommandOf(ws)];
    } else if ws != [] {
      assert CallsOf(Whole(ws)) == Err;
    }
  }

  // ---------------------------------------------------------------- print and parse

  function PrintNew(token: bytes, total: uint64): bytes {
    NEW + [SPACE] + Quote(token) + [SPACE] + Decimal(total)
  }

  function PrintMint(token: bytes, amount: uint64): bytes {
    MINT + [SPACE] + Quote(token) + [SPACE] + Decimal(amount)
  }

  function PrintTransfer(token: bytes, amount: uint64, to: bytes): bytes {
    TRANSFER + [SPACE] + Quote(token) + [SPACE] + Decimal(amount) + [SPACE] + Quote(to)
  }

  lemma WordsStep(s: bytes, w: Word, rest: bytes, ws: seq<Word>)
    requires s != [] && NextSymbol(s) == (Token(w), rest) && Words(rest) == Some(ws)
    ensures Words(s) == Some([w] + ws)
  {
  }

  lemma WordsNumber(n: uint64, rest: bytes, ws: seq<Word>)
    requires rest == [] || rest[0] == SPACE
    requires Words(rest) == Some(ws)
    ensures Words([SPACE] + (Decimal(n) + rest)) == Some([IntConstant(n)] + ws)
  {
    ReadNumber(n, rest);
    SkipSpace(Decimal(n) + rest);
    WordsStep([SPACE] + (Decimal(n) + rest), IntConstant(n), rest, ws);
  }

  lemma WordsQuoted(t: bytes, rest: bytes, ws: seq<Word>)
    requires Quotable(t) && Words(rest) == Some(ws)
    ensures Words([SPACE] + (Quote(t) + rest)) == Some([StringConstant(t)] + ws)
  {
    ReadQuoted(t, rest);
    SkipSpace(Quote(t) + rest);
    WordsStep([SPACE] + (Quote(t) + rest), StringConstant(t), rest, ws);
  }

  lemma WordsNamed(name: bytes, rest: bytes, ws: seq<Word>)
    requires IsName(name) && rest != [] && rest[0] == SPACE && Words(rest) == Some(ws)
    ensures Words(name + rest) == Some([Identifier(name)] + ws)
  {
    ReadName(name, rest);
    WordsStep(name + rest, Identifier(name), rest, ws);
  }

  lemma WordsTokenAmount(name: bytes, token: bytes, n: uint64, rest: bytes, ws: seq<Word>)
    requires IsName(name) && Quotable(token) && (rest == [] || rest[0] == SPACE) && Words(rest) == Some(ws)
    ensures Words(name + [SPACE] + Quote(token) + [SPACE] + Decimal(n) + rest)
         == Some([Identifier(name), StringConstant(token), IntConstant(n)] + ws)
  {
    WordsNumber(n, rest, ws);
    var tail := [SPACE] + (Decimal(n) + rest);
    WordsQuoted(token, tail, [IntConstant(n)] + ws);
    var middle := [SPACE] + (Quote(token) + tail);
    WordsNamed(name, middle, [StringConstant(token)] + ([IntConstant(n)] + ws));
    Regroup(name, [SPACE], Quote(token), Decimal(n), rest);
    RegroupWords(Identifier(name), StringConstant(token), IntConstant(n), ws);
  }

  lemma Regroup(a: bytes, sp: bytes, b: bytes, c: bytes, d: bytes)
    ensures a + sp + b + sp + c + d == a + (sp + (b + (sp + (c + d))))
  {
  }

  lemma RegroupWords(a: Word, b: Word, c: Word, ws: seq<Word>)
    ensures [a] + ([b] + ([c] + ws)) == [a, b, c] + ws
  {
  }

  lemma CommandNames()
    ensures IsName(NEW) && IsName(MINT) && IsName(TRANSFER)
    ensures Signature(NEW) == [TOKENID, AMOUNT] && Signature(MINT) == [TOKENID, AMOUNT]
    ensures Signature(TRANSFER) == [TOKENID, AMOUNT, ADDRESS]
    ensures Signature(FREEZE) == Signature(UNFREEZE) == [TOKENID, ADDRESS]
  {
  }

  lemma CommandIs(ws: seq<Word>, types: seq<nat>, args: seq<Argument>)
    requires IsCall(ws) && types == Signature(ws[0].name) && |args| == |types| < |ws|
    requires forall i :: 0 <= i < |types| ==> !ws[i + 1].Identifier? && Fits(types[i], ws[i + 1])
    requires forall i :: 0 <= i < |types| ==> args[i] == Argument(types[i], WordValue(ws[i + 1]))
    ensures CommandOf(ws) == Some(Command(ws[0].name, args))
  {
    assert seq(|types|, i requires 0 <= i < |types| => Argument(types[i], WordValue(ws[i + 1]))) == args;
  }

  /** Words that make up one command. */
  lemma OneCommand(s: bytes, ws: seq<Word>, args: seq<Argument>)
    requires Words(s) == Some(ws) && IsCall(ws) && Registered(ws[0].name)
    requires CommandOf(ws) == Some(Command(ws[0].name, args))
    ensures Scripts(s) == [Some(Command(ws[0].name, args))]
  {
    ScriptsOfWords(s, ws);
  }

  lemma TokenAmountCommand(name: bytes, token: bytes, n: uint64, s: bytes)
    requires IsName(name) && Quotable(token) && Signature(name) == [TOKENID, AMOUNT] && Registered(name)
    requires s == name + [SPACE] + Quote(token) + [SPACE] + Decimal(n)
    ensures Scripts(s) == [Some(Command(name, [Argument(TOKENID, Text(token)), Argument(AMOUNT, Number(n))]))]
  {
    WordsTokenAmount(name, token, n, [], []);
    assert s + [] == s;
    var ws := [Identifier(name), StringConstant(token), IntConstant(n)];
    assert ws + [] == ws;
    var args := [Argument(TOKENID, Text(token)), Argument(AMOUNT, Number(n))];
    CommandIs(ws, [TOKENID, AMOUNT], args);
    OneCommand(s, ws, args);
  }

  /** The text printed to create a token parses to that one command with those arguments; */
  lemma ParsePrintNew(token: bytes, total: uint64)
    requires Quotable(token)
    ensures Scripts(PrintNew(token, total))
         == [Some(Command(NEW, [Argument(TOKENID, Text(token)), Argument(AMOUNT, Number(total))]))]
  {
    CommandNames();
    TokenAmountCommand(NEW, token, total, PrintNew(token, total));
  }

  /** so does the text printed to mint, */
  lemma ParsePrintMint(token: bytes, amount: uint64)
    requires Quotable(token)
    ensures Scripts(PrintMint(token, amount))
         == [Some(Command(MINT, [Argument(TOKENID, Text(token)), Argument(AMOUNT, Number(amount))]))]
  {
    CommandNames();
    TokenAmountCommand(MINT, token, amount, PrintMint(token, amount));
  }

  /** and the text printed to transfer. */
  lemma ParsePrintTransfer(token: bytes, amount: uint64, to: bytes)
    requires Quotable(token) && Quotable(to)
    ensures Scripts(PrintTransfer(token, amount, to))
         == [Some(Command(TRANSFER, [Argument(TOKENID, Text(token)), Argument(AMOUNT, Number(amount)),
                                     Argument(ADDRESS, Text(to))]))]
  {
    CommandNames();
    TransferWords(token, amount, to);
    var ws := [Identifier(TRANSFER), StringConstant(token), IntConstant(amount), StringConstant(to)];
    var args := [Argument(TOKENID, Text(token)), Argument(AMOUNT, Number(amount)), Argument(ADDRESS, Text(to))];
    CommandIs(ws, [TOKENID, AMOUNT, ADDRESS], args);
    OneCommand(PrintTransfer(token, amount, to), ws, args);
  }

  lemma AppendLast(a: bytes, b: bytes, c: bytes)
    ensures a + b + c == a + (b + (c + []))
  {
  }

  lemma TransferWords(token: bytes, amount: uint64, to: bytes)
    requires Quotable(token) && Quotable(to)
    ensures Words(PrintTransfer(token, amount, to))
         == Some([Identifier(TRANSFER), StringConstant(token), IntConstant(amount), StringConstant(to)])
  {
    CommandNames();
    var rest := [SPACE] + (Quote(to) + []);
    assert Words([]) == Some([]);
    WordsQuoted(to, [], []);
    assert [StringConstant(to)] + [] == [StringConstant(to)];
    WordsTokenAmount(TRANSFER, token, amount, rest, [StringConstant(to)]);
    assert [Identifier(TRANSFER), StringConstant(token), IntConstant(amount)] + [StringConstant(to)]
        == [Identifier(TRANSFER), StringConstant(token), IntConstant(amount), StringConstant(to)];
    AppendLast(TRANSFER + [SPACE] + Quote(token) + [SPACE] + Decimal(amount), [SPACE], Quote(to));
  }

  /** A text to freeze or unfreeze an address. */
  function FreezeText(name: bytes, token: bytes, addr: bytes): bytes {
    name + [SPACE] + Quote(token) + [SPACE] + Quote(addr)
  }

  lemma FreezeNames()
    ensures IsName(FREEZE) && IsName(UNFREEZE)
  {
  }

  lemma TwoWords(a: Word, b: Word, c: Word)
    ensures [a] + [] == [a] && [a] + [b] == [a, b] && [a] + [b, c] == [a, b, c]
  {
  }

  lemma FreezeWords(name: bytes, token: bytes, addr: bytes)
    requires IsName(name) && Quotable(token) && Quotable(addr)
    ensures Words(FreezeText(name, token, addr))
         == Some([Identifier(name), StringConstant(token), StringConstant(addr)])
  {
    TwoWords(StringConstant(addr), StringConstant(addr), StringConstant(addr));
    TwoWords(StringConstant(token), StringConstant(addr), StringConstant(addr));
    TwoWords(Identifier(name), StringConstant(token), StringConstant(addr));
    var last := [SPACE] + (Quote(addr) + []);
    var middle := [SPACE] + (Quote(token) + last);
    assert Words([]) == Some([]);
    WordsQuoted(addr, [], []);
    WordsQuoted(token, last, [StringConstant(addr)]);
    WordsNamed(name, middle, [StringConstant(token), StringConstant(addr)]);
    AppendTwo(name, [SPACE], Quote(token), Quote(addr));
  }

  lemma AppendTwo(a: bytes, sp: bytes, b: bytes, c: bytes)
    ensures a + sp + b + sp + c == a + (sp + (b + (sp + (c + []))))
  {
  }

  /** It parses to that one command too. */
  lemma ParseFreezeText(name: bytes, token: bytes, addr: bytes)
    requires (name == FREEZE || name == UNFREEZE) && Quotable(token) && Quotable(addr)
    ensures Scripts(FreezeText(name, token, addr))
         == [Some(Command(name, [Argument(TOKENID, Text(token)), Argument(ADDRESS, Text(addr))]))]
  {
    CommandNames();
    FreezeNames();
    FreezeWords(name, token, addr);
    var ws := [Identifier(name), StringConstant(token), StringConstant(addr)];
    var args := [Argument(TOKENID, Text(token)), Argument(ADDRESS, Text(addr))];
    CommandIs(ws, [TOKENID, ADDRESS], args);
    OneCommand(FreezeText(name, token, addr), ws, args);
  }
}
