/** The script parser of contract/parser/parser.go as functions over its reading state: the
    word looked at but not taken, if any, and the bytes not lexed yet. */
module ParseSpec {
  import opened Bytes
  import opened Options
  import opened LexSpec

  datatype PState = PState(look: Option<Word>, rest: bytes)

  datatype Node =
    | IntNode(number: uint64)
    | StringNode(text: bytes)
    | ListNode(left: Node, right: Node)
    | CallNode(name: bytes, args: Option<Node>)

  function Size(p: PState): nat {
    2 * |p.rest| + if p.look.Some? then 1 else 0
  }

  /** The next word, if there is one: a lexical error counts as the end of input. */
  function GetW(p: PState): (r: (Option<Word>, PState))
    ensures r.0.Some? ==> Size(r.1) < Size(p)
    ensures Size(r.1) <= Size(p) && r.1.look == None
  {
    if p.look.Some? then (p.look, PState(None, p.rest))
    else
      var (sym, rest) := NextSymbol(p.rest);
      (if sym.Token? then Some(sym.word) else None, PState(None, rest))
  }

  /** Looking at the next word pushes it back. */
  function Peek(p: PState): (r: (Option<Word>, PState))
    ensures Size(r.1) <= Size(p) && r.1.look == r.0
  {
    var (w, q) := GetW(p);
    (w, PState(w, q.rest))
  }

  /** PrimaryExpression: an integer or string constant. */
  function Primary(p: PState): (r: (Result<Node>, PState))
    ensures r.0.Ok? ==> Size(r.1) < Size(p)
    ensures Size(r.1) <= Size(p)
  {
    var (w, q) := Peek(p);
    match w
    case Some(IntConstant(n)) => (Ok(IntNode(n)), GetW(q).1)
    case Some(StringConstant(t)) => (Ok(StringNode(t)), GetW(q).1)
    case _ => (Err, q)
  }

  /** ArgumentExpressionList: constants up to the end of input. */
  function Arguments(p: PState): (r: (Result<Node>, PState))
    ensures r.0.Ok? ==> Size(r.1) < Size(p)
    ensures Size(r.1) <= Size(p)
    decreases Size(p)
  {
    var (n1, q) := Primary(p);
    if n1.Err? then (Err, q)
    else
      var (w, q1) := Peek(q);
      if w == None then (n1, GetW(q1).1)
      else if w.value.Identifier? then (Err, q1)
      else
        var (n2, q2) := Arguments(q1);
        if n2.Err? then (Err, q2) else (Ok(ListNode(n1.value, n2.value)), q2)
  }

  /** FunctionCALL: a name and, unless the input ends there, its arguments. */
  function FunctionCall(p: PState): (r: (Result<Node>, PState))
    ensures r.0.Ok? ==> Size(r.1) < Size(p)
  {
    var (w, q) := Peek(p);
    match w
    case Some(Identifier(name)) =>
      var (e, q1) := Peek(GetW(q).1);
      if e == None then (Ok(CallNode(name, None)), GetW(q1).1)
      else
        var (n, q2) := Arguments(q1);
        if n.Err? then (Err, q2) else (Ok(CallNode(name, Some(n.value))), q2)
    case _ => (Err, q)
  }

  /** The top loop: calls until the end of input. */
  function Calls(p: PState): Result<seq<Node>>
    decreases Size(p)
  {
    var (w, q) := Peek(p);
    match w
    case None => Ok([])
    case Some(Identifier(_)) =>
      var (n, q1) := FunctionCall(q);
      if n.Err? then Err
      else
        var ns := Calls(q1);
        if ns.Err? then Err else Ok([n.value] + ns.value)
    case _ => Err
  }

  // ---------------------------------------------------------------- the language accepted

  /** The symbols a state still has to deliver, None for a lexical error. */
  function SymbolsOf(p: PState): seq<Option<Word>> {
    if p.look.Some? then [p.look] + Symbols(p.rest) else Symbols(p.rest)
  }

  predicate IsConstants(ws: seq<Word>) {
    forall i :: 0 <= i < |ws| ==> !ws[i].Identifier?
  }

  function ConstantNode(w: Word): Node
    requires !w.Identifier?
  {
    if w.IntConstant? then IntNode(w.number) else StringNode(w.text)
  }

  function ArgumentNode(ws: seq<Word>): Node
    requires ws != [] && IsConstants(ws)
  {
    if |ws| == 1 then ConstantNode(ws[0]) else ListNode(ConstantNode(ws[0]), ArgumentNode(ws[1..]))
  }

  function CallOf(ws: seq<Word>): Node
    requires ws != [] && ws[0].Identifier? && IsConstants(ws[1..])
  {
    CallNode(ws[0].name, if |ws| == 1 then None else Some(ArgumentNode(ws[1..])))
  }

  predicate IsCall(ws: seq<Word>) {
    ws != [] && ws[0].Identifier? && IsConstants(ws[1..])
  }

  lemma NothingLeft(s: bytes)
    requires Symbols(s) == []
    ensures NextSymbol(s) == (Eof, [])
  {
    var (sym, rest) := NextSymbol(s);
  }

  /** An error is taken when it is looked at, a word is not. */
  lemma GetWDelivers(p: PState, xs: seq<Option<Word>>)
    requires SymbolsOf(p) == xs
    ensures xs == [] ==> GetW(p).0 == None && SymbolsOf(GetW(p).1) == []
    ensures xs != [] ==> GetW(p).0 == xs[0] && SymbolsOf(GetW(p).1) == xs[1..]
    ensures xs == [] ==> Peek(p).0 == None && SymbolsOf(Peek(p).1) == []
    ensures xs != [] ==> Peek(p).0 == xs[0] && SymbolsOf(Peek(p).1) == if xs[0] == None then xs[1..] else xs
  {
    if p.look == None {
      if xs == [] {
        NothingLeft(p.rest);
      } else {
        var (sym, rest) := NextSymbol(p.rest);
        assert xs == [xs[0]] + Symbols(rest);
        assert xs[1..] == Symbols(rest) && [xs[0]] + xs[1..] == xs;
      }
    } else {
      assert xs == [xs[0]] + Symbols(p.rest);
    }
  }

  /** The words in front of the first error. */
  function Front(xs: seq<Option<Word>>): (ws: seq<Word>)
    ensures |ws| <= |xs| && forall i :: 0 <= i < |ws| ==> xs[i] == Some(ws[i])
    ensures |ws| < |xs| ==> xs[|ws|] == None
  {
    if xs == [] || xs[0] == None then [] else [xs[0].value] + Front(xs[1..])
  }

  /** What follows the first error and one more symbol. */
  function Behind(xs: seq<Option<Word>>): (ys: seq<Option<Word>>)
    ensures ys == if |Front(xs)| + 2 <= |xs| then xs[|Front(xs)| + 2..] else []
  {
    if xs == [] then [] else if xs[0] == None then (if |xs| == 1 then [] else xs[2..]) else Behind(xs[1..])
  }

  lemma FrontSteps(xs: seq<Option<Word>>)
    requires xs != [] && xs[0].Some?
    ensures Front(xs) == [xs[0].value] + Front(xs[1..]) && Front(xs)[1..] == Front(xs[1..])
    ensures Behind(xs) == Behind(xs[1..])
  {
  }

  /** The end of a call: looking at what follows and taking the end. */
  function SkipEnd(p: PState): PState {
    GetW(Peek(p).1).1
  }

  lemma EndSkipped(p: PState, xs: seq<Option<Word>>)
    requires SymbolsOf(p) == xs && (xs == [] || xs[0] == None)
    ensures Peek(p).0 == None && SymbolsOf(SkipEnd(p)) == Behind(xs)
  {
    GetWDelivers(p, xs);
    GetWDelivers(Peek(p).1, if xs == [] then [] else xs[1..]);
  }

  lemma PrimaryTakes(p: PState, xs: seq<Option<Word>>)
    requires SymbolsOf(p) == xs
    ensures Primary(p).0 == if xs != [] && xs[0].Some? && !xs[0].value.Identifier? then Ok(ConstantNode(xs[0].value))
                            else Err
    ensures Primary(p).0.Ok? ==> SymbolsOf(Primary(p).1) == xs[1..]
  {
    GetWDelivers(p, xs);
    if xs != [] && xs[0].Some? {
      GetWDelivers(Peek(p).1, xs);
    }
  }

  lemma ConstantsTail(ws: seq<Word>)
    requires ws != [] && !ws[0].Identifier?
    ensures IsConstants(ws) <==> IsConstants(ws[1..])
  {
    assert forall i :: 1 <= i < |ws| ==> ws[i] == ws[1..][i - 1];
  }

  /** An argument list is read if and only if constants follow up to the end of input or the first
      error; the error and the symbol after it are taken with it. */
  lemma {:induction false} ArgumentsAccept(p: PState, xs: seq<Option<Word>>)
    requires SymbolsOf(p) == xs
    ensures Arguments(p).0.Ok? <==> Front(xs) != [] && IsConstants(Front(xs))
    ensures Arguments(p).0.Ok? ==>
              Arguments(p).0.value == ArgumentNode(Front(xs)) && SymbolsOf(Arguments(p).1) == Behind(xs)
    decreases |xs|
  {
    PrimaryTakes(p, xs);
    if Primary(p).0.Ok? {
      var q, ys := Primary(p).1, xs[1..];
      FrontSteps(xs);
      if ys == [] || ys[0] == None {
        EndSkipped(q, ys);
      } else {
        GetWDelivers(q, ys);
        if !ys[0].value.Identifier? {
          ConstantsTail(Front(xs));
          ArgumentsAccept(Peek(q).1, ys);
        }
      }
    }
  }

  lemma FunctionCallAccepts(p: PState, xs: seq<Option<Word>>)
    requires SymbolsOf(p) == xs
    ensures FunctionCall(p).0.Ok? <==> IsCall(Front(xs))
    ensures IsCall(Front(xs)) ==>
              FunctionCall(p).0.value == CallOf(Front(xs)) && SymbolsOf(FunctionCall(p).1) == Behind(xs)
  {
    GetWDelivers(p, xs);
    if xs != [] && xs[0].Some? && xs[0].value.Identifier? {
      var q, ys := GetW(Peek(p).1).1, xs[1..];
      GetWDelivers(Peek(p).1, xs);
      FrontSteps(xs);
      if ys == [] || ys[0] == None {
        EndSkipped(q, ys);
      } else {
        GetWDelivers(q, ys);
        ArgumentsAccept(Peek(q).1, ys);
      }
    }
  }

  lemma EndOfCalls(p: PState)
    requires Peek(p).0 == None
    ensures Calls(p) == Ok([])
  {
  }

  lemma NextCall(p: PState)
    requires Peek(p).0.Some? && Peek(p).0.value.Identifier?
    ensures var (n, q) := FunctionCall(Peek(p).1);
            Calls(p) == if n.Err? || Calls(q).Err? then Err else Ok([n.value] + Calls(q).value)
  {
  }

  lemma NoCall(p: PState)
    requires Peek(p).0.Some? && !Peek(p).0.value.Identifier?
    ensures Calls(p) == Err
  {
  }

  /** The language of scripts over symbols: calls, each a name and constants, ended by the end of
      input or by a lexical error, which takes the next symbol with it; an error where a call should
      begin ends the script. */
  function CallsOf(xs: seq<Option<Word>>): Result<seq<Node>>
    decreases |xs|
  {
    if Front(xs) == [] then Ok([])
    else if !IsCall(Front(xs)) then Err
    else match CallsOf(Behind(xs))
      case Err => Err
      case Ok(ns) => Ok([CallOf(Front(xs))] + ns)
  }

  /** That is what the parser accepts, on every input. */
  lemma {:induction false} CallsAccept(p: PState, xs: seq<Option<Word>>)
    requires SymbolsOf(p) == xs
    ensures Calls(p) == CallsOf(xs)
    decreases |xs|
  {
    GetWDelivers(p, xs);
    if Front(xs) == [] {
      EndOfCalls(p);
    } else if xs[0].value.Identifier? {
      var q := Peek(p).1;
      FunctionCallAccepts(q, xs);
      NextCall(p);
      if IsCall(Front(xs)) {
        CallsAccept(FunctionCall(q).1, Behind(xs));
      }
    } else {
      NoCall(p);
    }
  }

  lemma {:induction false} FrontOfWhole(ws: seq<Word>)
    ensures Front(Whole(ws)) == ws && Behind(Whole(ws)) == []
  {
    if ws != [] {
      assert Whole(ws)[1..] == Whole(ws[1..]);
      FrontOfWhole(ws[1..]);
    }
  }

  /** Without lexical errors: nothing at all, or one name followed by constants up to the end, which
      gives exactly one call. */
  lemma WordsAccept(s: bytes, ws: seq<Word>)
    requires Words(s) == Some(ws)
    ensures Calls(PState(None, s)) ==
            if ws == [] then Ok([]) else if IsCall(ws) then Ok([CallOf(ws)]) else Err
  {
    SymbolsAreWords(s);
    FrontOfWhole(ws);
    CallsAccept(PState(None, s), Whole(ws));
    assert CallsOf([]) == Ok([]);
    assert forall n: Node :: [n] + [] == [n];
  }

  /** The symbol two places after the first error, the error not being in front, is a name. */
  predicate NameAfterError(xs: seq<Option<Word>>) {
    var e := |Front(xs)|;
    0 < e && e + 2 < |xs| && xs[e + 2].Some? && xs[e + 2].value.Identifier?
  }

  lemma SecondCall(xs: seq<Option<Word>>)
    requires CallsOf(xs).Ok?
    ensures |CallsOf(xs).value| > 1 <==> NameAfterError(xs)
  {
    var e := |Front(xs)|;
    if e > 0 {
      var ys := Behind(xs);
      assert CallsOf(ys).Ok? && CallsOf(xs).value == [CallOf(Front(xs))] + CallsOf(ys).value;
      assert e + 2 < |xs| ==> ys != [] && ys[0] == xs[e + 2];
    }
  }

  /** For every input that parses: there is more than one call if and only if there is a lexical
      error, not in front, and the symbol two places after the first one is a name. */
  lemma MoreCallsIff(s: bytes)
    requires Calls(PState(None, s)).Ok?
    ensures |Calls(PState(None, s)).value| > 1 <==> NameAfterError(Symbols(s))
  {
    CallsAccept(PState(None, s), Symbols(s));
    SecondCall(Symbols(s));
  }

  lemma ReadWordAfterSpace(c: byte, rest: bytes)
    requires IsAlpha(c) && (rest == [] || !IsAlnum(rest[0]))
    ensures NextSymbol([SPACE, c] + rest) == (Token(Identifier([c])), rest)
  {
    SkipSpace([c] + rest);
    assert [SPACE, c] + rest == [SPACE] + ([c] + rest);
    ReadName([c], rest);
  }

  /** " c" and then something that goes on with a space: the name c, then what is left. */
  lemma ReadName1(s: bytes, c: byte, rest: bytes)
    requires s == [SPACE, c] + rest && IsAlpha(c) && (rest == [] || rest[0] == SPACE)
    ensures NextSymbol(s) == (Token(Identifier([c])), rest)
  {
    ReadWordAfterSpace(c, rest);
  }

  lemma ReadError(s: bytes, rest: bytes)
    requires s == [SPACE, 35] + rest
    ensures NextSymbol(s) == (Error, rest)
  {
    SkipSpace([35] + rest);
    assert s == [SPACE] + ([35] + rest);
    assert ([35] + rest)[1..] == rest;
  }

  /** Here " a # b c" gives two calls. */
  lemma LexicalErrorSplitsCalls()
    ensures var s: bytes := [32, 97, 32, 35, 32, 98, 32, 99];
            Words(s) == None && Calls(PState(None, s)) == Ok([CallNode([97], None), CallNode([99], None)])
  {
    var s3: bytes := [32, 99];
    var s2: bytes := [32, 98] + s3;
    var s1: bytes := [32, 35] + s2;
    var s: bytes := [32, 97] + s1;
    assert s == [32, 97, 32, 35, 32, 98, 32, 99];
    assert s3 == [32, 99] + [];
    ReadName1(s3, 99, []);
    ReadName1(s2, 98, s3);
    ReadError(s1, s2);
    ReadName1(s, 97, s1);
    ThreeNames(s, s1, s2, s3);
    var xs := Symbols(s);
    CallsAccept(PState(None, s), xs);
    TwoNamedCalls(xs, [97], [98], [99]);
  }

  lemma ThreeNames(s: bytes, s1: bytes, s2: bytes, s3: bytes)
    requires s != [] && s1 != [] && s2 != [] && s3 != []
    requires NextSymbol(s) == (Token(Identifier([97])), s1) && NextSymbol(s1) == (Error, s2)
    requires NextSymbol(s2) == (Token(Identifier([98])), s3) && NextSymbol(s3) == (Token(Identifier([99])), [])
    ensures Words(s) == None
    ensures Symbols(s) == [Some(Identifier([97])), None, Some(Identifier([98])), Some(Identifier([99]))]
  {
    assert Symbols(s3) == [Some(Identifier([99]))] + [];
    assert Symbols(s2) == [Some(Identifier([98]))] + Symbols(s3);
    assert Symbols(s1) == [None] + Symbols(s2);
  }

  lemma TwoNamedCalls(xs: seq<Option<Word>>, a: bytes, b: bytes, c: bytes)
    requires xs == [Some(Identifier(a)), None, Some(Identifier(b)), Some(Identifier(c))]
    ensures CallsOf(xs) == Ok([CallNode(a, None), CallNode(c, None)])
  {
    var ys := [Some(Identifier(c))];
    assert xs[1..][0] == None && Front(xs) == [Identifier(a)];
    assert Behind(xs) == ys;
    assert ys[1..] == [] && Front(ys) == [Identifier(c)] && Behind(ys) == [];
    var m, n := CallNode(a, None), CallNode(c, None);
    assert CallOf([Identifier(a)]) == m && CallOf([Identifier(c)]) == n;
    assert IsCall([Identifier(a)]) && IsCall([Identifier(c)]);
    assert CallsOf([]) == Ok([]) && [n] + [] == [n] && [m] + [n] == [m, n];
    assert CallsOf(ys) == Ok([n]);
  }
}
