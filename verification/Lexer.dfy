/** The lexer object of contract/parser/word.go: a 1024-byte buffer refilled from the reader,
    and characters that can be pushed back. */
module Lexer {
  import opened Bytes
  import opened Options
  import opened LexSpec

  const EOF: int := -1
  const ROLLSIZE := 2
  const BUFFSIZE := 1024

  lemma Advance(s: bytes, n: nat)
    requires n <= |s|
    ensures n < |s| ==> s[n..] != [] && s[n..][0] == s[n] && s[n..][1..] == s[n + 1..]
    ensures n < |s| ==> s[..n + 1] == s[..n] + [s[n]] && [s[n]] + s[n + 1..] == s[n..]
    ensures n == |s| ==> s[n..] == []
  {
  }

  lemma HeadFirst(c: byte, s: bytes, n: nat)
    requires n <= |s|
    ensures ([c] + s)[..1 + n] == [c] + s[..n] && ([c] + s)[1 + n..] == s[n..]
  {
  }

  lemma LiteralDone(a: byte, s: bytes, n: nat, c: int, text: bytes, rest: bytes)
    requires IsQuote(a) && n <= |s| && forall i :: 0 <= i < n ==> InLiteral(a)(s[i])
    requires c == if n < |s| then s[n] else EOF
    requires c == EOF || c == a || IsNewline(c)
    requires text == s[..n] && rest == if n < |s| then s[n + 1..] else []
    ensures Literal(a, s) == (if c == a then LiteralSymbol(text) else Error, rest)
  {
    LiteralEnds(a, s, n);
  }

  lemma NewlineSkipped(s: bytes)
    requires s != [] && IsNewline(s[0])
    ensures NextSymbol(s) == NextSymbol(s[1..])
  {
  }

  class ScriptLex {
    var fd: bytes                  // what the reader has not delivered yet
    const buffer: array<byte>
    var pos: nat
    var lim: nat
    var rollCnt: nat
    const rollBuffer: array<int>
    var curr: Word
    var err: bool

    ghost var rest: bytes          // the input still to be lexed

    ghost predicate Valid()
      reads this, buffer, rollBuffer
    {
      && Shape()
      && rest == PushedBack() + buffer[pos..lim] + fd
    }

    ghost predicate Shape()
      reads this, buffer, rollBuffer
    {
      && buffer.Length == BUFFSIZE && rollBuffer.Length == ROLLSIZE
      && pos <= lim <= BUFFSIZE
      && rollCnt <= ROLLSIZE
      && (rollBuffer[0] == EOF || 0 <= rollBuffer[0] < 256)
      && (rollBuffer[0] == EOF ==> pos == lim && fd == [])
      && rollBuffer[1] == 0  // the loop that should move characters up never runs
    }

    ghost function PushedBack(): bytes
      requires Shape()
      reads this, buffer, rollBuffer
    {
      (if rollCnt == 2 then [0] else []) + if rollCnt >= 1 && rollBuffer[0] != EOF then [rollBuffer[0]] else []
    }

    constructor (data: bytes)
      ensures Valid() && rest == data
      ensures fresh(buffer) && fresh(rollBuffer)
    {
      fd := data;
      buffer := new byte[BUFFSIZE](_ => 0);
      rollBuffer := new int[ROLLSIZE](_ => 0);
      pos, lim, rollCnt := 0, 0, 0;
      curr := Identifier([]);
      err := false;
      rest := data;
    }

    /** bytes.Reader.Read: as many bytes as fit in the buffer. */
    method ReadBuffer() returns (n: nat)
      requires Valid() && rollCnt == 0 && pos == lim
      modifies this`fd, buffer
      ensures n == if |old(fd)| <= BUFFSIZE then |old(fd)| else BUFFSIZE
      ensures buffer[..n] == old(fd)[..n] && fd == old(fd)[n..]
    {
      n := if |fd| <= BUFFSIZE then |fd| else BUFFSIZE;
      for i := 0 to n
        invariant buffer[..i] == old(fd)[..i]
        invariant fd == old(fd)
      {
        buffer[i] := fd[i];
      }
      fd := fd[n..];
    }

    /** Makes sure the buffer holds an unread byte, unless the input is at its end. */
    method Fill() returns (eof: bool)
      requires Valid() && rollCnt == 0
      modifies this`fd, this`pos, this`lim, buffer
      ensures Valid()
      ensures eof ==> rest == [] && pos == lim && fd == []
      ensures !eof ==> pos < lim && rest != [] && rest[0] == buffer[pos]
    {
      if pos == lim {
        var n := ReadBuffer();
        if n == 0 {
          return true;
        }
        pos := 0;
        lim := n;
        assert buffer[pos..lim] + fd == rest;
      }
      assert buffer[pos..lim] == [buffer[pos]] + buffer[pos + 1..lim];
      return false;
    }

    /** The character pushed back last. */
    method RollBack() returns (c: int)
      requires Valid() && rollCnt > 0
      modifies this`rollCnt, this`rest
      ensures Valid() && rollCnt < ROLLSIZE && rollBuffer[rollCnt] == c
      ensures old(rest) == [] ==> c == EOF && rest == []
      ensures old(rest) != [] ==> c == old(rest)[0] && rest == old(rest)[1..]
    {
      rollCnt := rollCnt - 1;
      c := rollBuffer[rollCnt];
      rest := PushedBack() + buffer[pos..lim] + fd;
      assert old(rest) == (if c != EOF then [c] else []) + rest;
    }

    method Getc() returns (c: int)
      requires Valid()
      modifies this`fd, this`pos, this`lim, this`rollCnt, this`rest, buffer, rollBuffer
      ensures Valid() && rollCnt < ROLLSIZE && rollBuffer[rollCnt] == c
      ensures old(rest) == [] ==> c == EOF && rest == []
      ensures old(rest) != [] ==> c == old(rest)[0] && rest == old(rest)[1..]
    {
      if rollCnt > 0 {
        c := RollBack();
        return;
      }
      var eof := Fill();
      if eof {
        rollBuffer[0] := EOF;
        return EOF;
      }
      c := buffer[pos];
      rollBuffer[0] := c;
      assert buffer[pos..lim] == [c] + buffer[pos + 1..lim];
      pos := pos + 1;
      rest := rest[1..];
      assert rest == buffer[pos..lim] + fd;
    }

    /** Pushing back the character read last; a second time in a row it is a zero byte, and after
        that nothing happens. */
    method Ungetc()
      requires Valid()
      modifies this`rollCnt, this`rest
      ensures Valid() && rollCnt == if old(rollCnt) < ROLLSIZE then old(rollCnt) + 1 else old(rollCnt)
      ensures rest == (if old(rollCnt) == ROLLSIZE || rollBuffer[old(rollCnt)] == EOF then []
                       else [rollBuffer[old(rollCnt)]]) + old(rest)
    {
      if rollCnt < ROLLSIZE {
        rollCnt := rollCnt + 1;
      }
      rest := PushedBack() + buffer[pos..lim] + fd;
      assert rest == (if old(rollCnt) == ROLLSIZE || rollBuffer[old(rollCnt)] == EOF then []
                      else [rollBuffer[old(rollCnt)]]) + old(rest);
    }

    method SkipNewline()
      requires Valid()
      modifies this`fd, this`pos, this`lim, this`rollCnt, this`rest, buffer, rollBuffer
      ensures Valid()
      ensures |rest| <= |old(rest)|
      ensures NextSymbol(rest) == NextSymbol(old(rest))
    {
      ghost var symbol := NextSymbol(rest);
      while true
        invariant Valid()
        invariant |rest| <= |old(rest)|
        invariant NextSymbol(rest) == symbol
        decreases |rest|
      {
        ghost var s := rest;
        var c := Getc();
        if c == EOF || !IsNewline(c) {
          Ungetc();
          assert rest == s;
          return;
        }
        NewlineSkipped(s);
      }
    }

    method GetWord(a: byte)
      requires Valid()
      modifies this, buffer, rollBuffer
      ensures Valid()
      ensures var s, n := old(rest), Run(IsAlnum, old(rest));
              curr == Identifier([a] + s[..n]) && rest == s[n..]
    {
      var word := AlnumRun(a);
      curr := Identifier(word);
    }

    method AlnumRun(a: byte) returns (word: bytes)
      requires Valid()
      modifies this`fd, this`pos, this`lim, this`rollCnt, this`rest, buffer, rollBuffer
      ensures Valid()
      ensures var s, n := old(rest), Run(IsAlnum, old(rest));
              word == [a] + s[..n] && rest == s[n..]
    {
      ghost var s := rest;
      word := [a];
      ghost var n := 0;
      while true
        invariant Valid()
        invariant n <= |s| && rest == s[n..] && word == [a] + s[..n]
        invariant forall i :: 0 <= i < n ==> IsAlnum(s[i])
        decreases |s| - n
      {
        Advance(s, n);
        var c := Getc();
        if c == EOF || !IsAlnum(c) {
          Ungetc();
          assert rest == s[n..];
          RunIs(IsAlnum, s, n);
          return;
        }
        word := word + [c];
        n := n + 1;
      }
    }

    method GetLiteral(a: byte) returns (sym: Symbol)
      requires Valid() && IsQuote(a)
      modifies this, buffer, rollBuffer
      ensures Valid()
      ensures (sym, rest) == Literal(a, old(rest)) && (sym.Token? ==> curr == sym.word)
    {
      var text, c := LiteralText(a);
      if c != a {
        err := true;
        return Error;
      }
      sym := Unquote(text);
    }

    /** What stands before the closing quote, a line end or the end of input, and which of them. */
    method LiteralText(a: byte) returns (text: bytes, c: int)
      requires Valid() && IsQuote(a)
      modifies this`fd, this`pos, this`lim, this`rollCnt, this`rest, buffer, rollBuffer
      ensures Valid()
      ensures (if c == a then LiteralSymbol(text) else Error, rest) == Literal(a, old(rest))
    {
      ghost var s := rest;
      text := [];
      ghost var n := 0;
      while true
        invariant Valid()
        invariant n <= |s| && rest == s[n..] && text == s[..n]
        invariant forall i :: 0 <= i < n ==> InLiteral(a)(s[i])
        decreases |s| - n
      {
        Advance(s, n);
        c := Getc();
        if c == EOF || IsNewline(c) || a == c {
          LiteralDone(a, s, n, c, text, rest);
          return;
        }
        text := text + [c];
        n := n + 1;
      }
    }

    /** strconv.Unquote of the text between backquotes. */
    method Unquote(text: bytes) returns (sym: Symbol)
      modifies this`err, this`curr
      ensures sym == LiteralSymbol(text) && (sym.Token? ==> curr == sym.word)
    {
      if BACKQUOTE in text {
        err := true;
        return Error;
      }
      curr := StringConstant(text);
      return Token(curr);
    }

    /** After a leading zero: is the next character a digit, x or X? It is only looked at. */
    method MoreDigits() returns (more: bool)
      requires Valid()
      modifies this`fd, this`pos, this`lim, this`rollCnt, this`rest, buffer, rollBuffer
      ensures Valid() && rest == old(rest)
      ensures more <==> rest != [] && (rest[0] == 120 || rest[0] == 88 || IsDigit(rest[0]))
    {
      Advance(rest, 0);
      var c := Getc();
      Ungetc();
      assert rest == old(rest);
      more := c != EOF && (c == 120 || c == 88 || IsDigit(c));
    }

    method XdigitRun(a: byte) returns (word: bytes)
      requires Valid()
      modifies this`fd, this`pos, this`lim, this`rollCnt, this`rest, buffer, rollBuffer
      ensures Valid()
      ensures var s, n := old(rest), Run(IsXdigit, old(rest));
              word == [a] + s[..n] && rest == s[n..]
    {
      ghost var s := rest;
      word := [a];
      ghost var n := 0;
      while true
        invariant Valid()
        invariant n <= |s| && rest == s[n..] && word == [a] + s[..n]
        invariant forall i :: 0 <= i < n ==> IsXdigit(s[i])
        decreases |s| - n
      {
        Advance(s, n);
        var c := Getc();
        if c == EOF || !IsXdigit(c) {
          Ungetc();
          assert rest == s[n..];
          RunIs(IsXdigit, s, n);
          return;
        }
        word := word + [c];
        n := n + 1;
      }
    }

    /** Takes the digits after the first one into the word; pushes back what ends it. */
    method DigitWord(a: byte) returns (word: bytes)
      requires Valid() && IsDigit(a)
      modifies this`fd, this`pos, this`lim, this`rollCnt, this`rest, buffer, rollBuffer
      ensures Valid()
      ensures var s := old(rest); var n := DigitsAfter([a] + s);
              word == [a] + s[..n] && rest == s[n..]
    {
      assert ([a] + rest)[1..] == rest;
      if a == ZERO {
        var more := MoreDigits();
        if !more {
          word := [a];
          return;
        }
      }
      word := XdigitRun(a);
    }

    method GetDigit(a: byte) returns (sym: Symbol)
      requires Valid() && IsDigit(a)
      modifies this, buffer, rollBuffer
      ensures Valid()
      ensures var s := old(rest); var n := DigitsAfter([a] + s);
              sym == NumberSymbol([a] + s[..n]) && rest == s[n..] && (sym.Token? ==> curr == sym.word)
    {
      var word := DigitWord(a);
      match ParseUint(word) {
        case None =>
          err := true;
          sym := Error;
        case Some(v) =>
          curr := IntConstant(v);
          sym := Token(curr);
      }
    }

    /** What symbol does once it has read a character that is no space. */
    method SymbolFrom(c: byte) returns (sym: Symbol)
      requires Valid() && !IsSpace(c) && !IsNewline(c)
      modifies this, buffer, rollBuffer
      ensures Valid()
      ensures (sym, rest) == NextSymbol([c] + old(rest)) && (sym.Token? ==> curr == sym.word)
    {
      ghost var s := rest;
      assert ([c] + s)[1..] == s;
      if IsAlpha(c) {
        GetWord(c);
        HeadFirst(c, s, Run(IsAlnum, s));
        return Token(curr);
      } else if IsDigit(c) {
        sym := GetDigit(c);
        HeadFirst(c, s, DigitsAfter([c] + s));
      } else if IsQuote(c) {
        sym := GetLiteral(c);
      } else {
        return Error;
      }
    }

    /** Delivers the next symbol of the remaining input and leaves what follows it, wherever
        the buffer boundaries fall. */
    method NextWord() returns (sym: Symbol)
      requires Valid()
      modifies this, buffer, rollBuffer
      ensures Valid()
      ensures (sym, rest) == NextSymbol(old(rest)) && (sym.Token? ==> curr == sym.word)
    {
      while true
        invariant Valid()
        invariant NextSymbol(rest) == NextSymbol(old(rest))
        decreases |rest|
      {
        Advance(rest, 0);
        ghost var s := rest;
        var c := Getc();
        if c == EOF {
          return Eof;
        } else if IsSpace(c) {
        } else if IsNewline(c) {
          SkipNewline();
        } else {
          assert s == [c] + rest;
          sym := SymbolFrom(c);
          return;
        }
      }
    }
  }
}
