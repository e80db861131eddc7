/** The parser object of contract/parser/parser.go: recursive descent over the lexer with a
    roll-back buffer of words. */
module ScriptParser {
  import opened Bytes
  import opened Options
  import opened LexSpec
  import opened ParseSpec
  import opened Lexer

  lemma Appended<T>(xs: seq<T>, x: T, more: seq<T>)
    ensures xs + ([x] + more) == (xs + [x]) + more
  {
  }

  class Parser {
    const wt: ScriptLex
    var ns: seq<Node>
    var cnt: nat
    const rollBuffer: array<Option<Word>>

    ghost predicate Valid()
      reads this, rollBuffer, wt, wt.buffer, wt.rollBuffer
    {
      && wt.Valid()
      && rollBuffer.Length == ROLLSIZE
      && cnt <= 1  // never more than one word pushed back
      && (cnt == 1 ==> rollBuffer[0].Some?)
    }

    ghost function State(): PState
      requires Valid()
      reads this, rollBuffer, wt, wt.buffer, wt.rollBuffer
    {
      PState(if cnt == 1 then rollBuffer[0] else None, wt.rest)
    }

    constructor (data: bytes)
      ensures Valid() && State() == PState(None, data) && ns == []
      ensures fresh(wt) && fresh(wt.buffer) && fresh(wt.rollBuffer) && fresh(rollBuffer)
    {
      wt := new ScriptLex(data);
      ns := [];
      cnt := 0;
      rollBuffer := new Option<Word>[ROLLSIZE](_ => None);
    }

    method Getw() returns (w: Option<Word>)
      requires Valid()
      modifies this`cnt, rollBuffer, wt, wt.buffer, wt.rollBuffer
      ensures Valid() && cnt == 0
      ensures (w, State()) == GetW(old(State()))
      ensures w.Some? ==> rollBuffer[0] == w
    {
      if cnt > 0 {
        cnt := cnt - 1;
        return rollBuffer[0];
      }
      var sym := wt.NextWord();
      if !sym.Token? {
        return None;
      }
      rollBuffer[0] := Some(wt.curr);
      return rollBuffer[0];
    }

    method Ungetw()
      requires Valid() && cnt == 0 && rollBuffer[0].Some?
      modifies this`cnt
      ensures Valid() && State() == old(State()).(look := rollBuffer[0])
    {
      if cnt < ROLLSIZE {
        cnt := cnt + 1;
      }
    }

    method PeekWord() returns (w: Option<Word>)
      requires Valid()
      modifies this`cnt, rollBuffer, wt, wt.buffer, wt.rollBuffer
      ensures Valid()
      ensures (w, State()) == Peek(old(State()))
    {
      w := Getw();
      if w.Some? {
        Ungetw();
      }
    }

    /** parser2: PrimaryExpression. */
    method ParsePrimary() returns (n: Result<Node>)
      requires Valid()
      modifies this`cnt, rollBuffer, wt, wt.buffer, wt.rollBuffer
      ensures Valid()
      ensures (n, State()) == Primary(old(State()))
    {
      var w := PeekWord();
      match w {
        case Some(IntConstant(v)) =>
          var _ := Getw();
          return Ok(IntNode(v));
        case Some(StringConstant(t)) =>
          var _ := Getw();
          return Ok(StringNode(t));
        case _ =>
          return Err;
      }
    }

    /** parser1: ArgumentExpressionList. */
    method ParseArguments() returns (n: Result<Node>)
      requires Valid()
      modifies this`cnt, rollBuffer, wt, wt.buffer, wt.rollBuffer
      ensures Valid()
      ensures (n, State()) == Arguments(old(State()))
      decreases Size(State())
    {
      var n1 := ParsePrimary();
      if n1.Err? {
        return Err;
      }
      var w := PeekWord();
      if w == None {
        var _ := Getw();  // skip EOF
        return n1;
      }
      if w.value.Identifier? {
        return Err;
      }
      var n2 := ParseArguments();
      if n2.Err? {
        return Err;
      }
      return Ok(ListNode(n1.value, n2.value));
    }

    /** parser0: FunctionCALL. */
    method ParseCall() returns (n: Result<Node>)
      requires Valid()
      modifies this`cnt, rollBuffer, wt, wt.buffer, wt.rollBuffer
      ensures Valid()
      ensures (n, State()) == FunctionCall(old(State()))
    {
      var w := PeekWord();
      match w {
        case Some(Identifier(name)) =>
          var _ := Getw();
          var e := PeekWord();
          if e == None {
            var _ := Getw();  // skip EOF
            return Ok(CallNode(name, None));
          }
          var args := ParseArguments();
          if args.Err? {
            return Err;
          }
          return Ok(CallNode(name, Some(args.value)));
        case _ =>
          return Err;
      }
    }

    /** Collects the calls of the input in ns. */
    method Parse() returns (ok: bool)
      requires Valid() && ns == []
      modifies this, rollBuffer, wt, wt.buffer, wt.rollBuffer
      ensures Valid()
      ensures var r := Calls(old(State())); ok == r.Ok? && (ok ==> ns == r.value)
    {
      ghost var all := Calls(State());
      assert all.Ok? ==> ns + all.value == all.value;
      while true
        invariant Valid()
        invariant Calls(old(State())) ==
                  if Calls(State()).Err? then Err else Ok(ns + Calls(State()).value)
        decreases Size(State())
      {
        ghost var p := State();
        var w := PeekWord();
        match w {
          case None =>
            EndOfCalls(p);
            assert ns + [] == ns;
            return true;
          case Some(Identifier(_)) =>
            NextCall(p);
            var node := ParseCall();
            if node.Err? {
              return false;
            }
            ghost var more := Calls(State());
            Appended(ns, node.value, if more.Ok? then more.value else []);
            ns := ns + [node.value];
          case _ =>
            NoCall(p);
            return false;
        }
      }
    }
  }
}
