/** The binary form of scripts (contract/parser/otypes.go, contract/parser/operate.go). */
module Codec {
  import opened Bytes
  import opened Options
  import opened ParseSpec
  import opened Script

  /** An argument as it is stored: one that was only allocated has no value. */
  datatype Slot = Slot(typ: nat, value: Option<Value>)

  // ---------------------------------------------------------------- slices with their length

  function Low32(n: nat): nat {
    n % TWO_32
  }

  lemma Low32Small(n: nat)
    requires n < TWO_32
    ensures Low32(n) == n
  {
  }

  function Eslice(a: bytes): bytes {
    Put32(|a|) + a
  }

  /** The length is compared as a uint32. */
  function Dslice(data: bytes): Result<(bytes, bytes)> {
    if |data| < 4 then Err
    else
      var n, rest := FromLittleEndian(data[..4]), data[4..];
      if Low32(|rest|) < n || |rest| < n then Err else Ok((rest[..n], rest[n..]))
  }

  lemma DsliceEslice(a: bytes, rest: bytes)
    requires |a| + |rest| < TWO_32
    ensures Dslice(Eslice(a) + rest) == Ok((a, rest))
  {
    Associate(Put32(|a|), a, rest);
    TakeDrop(Put32(|a|), a + rest);
    Low32Small(|a + rest|);
    Put32RoundTrip(|a|);
    TakeDrop(a, rest);
  }

  // ---------------------------------------------------------------- one argument

  predicate IsNumberType(typ: nat) {
    typ == AMOUNT || typ == PERCENTAGE
  }

  predicate IsTextType(typ: nat) {
    typ == ORDER || typ == ADDRESS || typ == TOKENID
  }

  function ShowSlot(a: Slot): (r: bytes)
    ensures |r| >= 4
  {
    Put32(a.typ) +
    match a.value
    case None => []
    case Some(Number(n)) => Put64(n)
    case Some(Text(t)) => Eslice(t)
  }

  /** Reads over `old`; an unknown type reads no value and does not even skip itself. */
  function ReadSlot(old_: Slot, data: bytes): Result<(Slot, bytes)> {
    if |data| < 4 then Err
    else
      var typ, rest := FromLittleEndian(data[..4]), data[4..];
      if IsNumberType(typ) then
        if |rest| < 8 then Err else Ok((Slot(typ, Some(Number(Get64(rest[..8])))), rest[8..]))
      else if IsTextType(typ) then
        match Dslice(rest) case Err => Err case Ok((t, more)) => Ok((Slot(typ, Some(Text(t))), more))
      else Ok((Slot(typ, old_.value), data))
  }

  /** The type and the value agree, and the lengths fit their fields. */
  predicate WellTyped(a: Slot) {
    match a.value
    case None => false
    case Some(Number(_)) => IsNumberType(a.typ)
    case Some(Text(t)) => IsTextType(a.typ)
  }

  lemma ReadShowSlot(old_: Slot, a: Slot, rest: bytes)
    requires WellTyped(a) && |ShowSlot(a)| + |rest| < TWO_32
    ensures ReadSlot(old_, ShowSlot(a) + rest) == Ok((a, rest))
  {
    var body := match a.value case Some(Number(n)) => Put64(n) case Some(Text(t)) => Eslice(t);
    Associate(Put32(a.typ), body, rest);
    TakeDrop(Put32(a.typ), body + rest);
    Put32RoundTrip(a.typ);
    match a.value
    case Some(Number(n)) =>
      TakeDrop(Put64(n), rest);
      Put64RoundTrip(n);
    case Some(Text(t)) =>
      DsliceEslice(t, rest);
  }

  // ---------------------------------------------------------------- a whole script

  /** The arguments from number i on. */
  function ShowFrom(args: seq<Slot>, i: nat): bytes
    requires i <= |args|
    decreases |args| - i
  {
    if i == |args| then [] else ShowSlot(args[i]) + ShowFrom(args, i + 1)
  }

  function Shown(name: bytes, args: seq<Slot>): bytes {
    Put32(|args|) + Eslice(name) + ShowFrom(args, 0)
  }

  /** Reads arguments i to n into the slots of the receiver. */
  function ReadFrom(slots: seq<Option<Slot>>, i: nat, n: nat, data: bytes): (r: Result<(seq<Option<Slot>>, bytes)>)
    requires i <= n <= |slots|
    ensures r.Ok? ==> |r.value.0| == |slots|
    decreases n - i
  {
    if i == n then Ok((slots, data))
    else match ReadSlot(if slots[i].Some? then slots[i].value else Slot(0, None), data)
      case Err => Err
      case Ok((a, rest)) => ReadFrom(slots[i := Some(a)], i + 1, n, rest)
  }

  /** A type the reader does not know takes no value and is not even skipped: all arguments from there on
      get that type, keep the values they had, and what follows is what was there. */
  lemma {:induction false} UnknownTypeSticks(slots: seq<Option<Slot>>, i: nat, n: nat, data: bytes)
    requires i <= n <= |slots| && |data| >= 4 && FromLittleEndian(data[..4]) >= 5
    ensures var r := ReadFrom(slots, i, n, data);
            && r.Ok? && r.value.1 == data
            && (forall j :: i <= j < n ==>
                  r.value.0[j] == Some(Slot(FromLittleEndian(data[..4]),
                                            if slots[j].Some? then slots[j].value.value else None)))
            && (forall j :: 0 <= j < |slots| && !(i <= j < n) ==> r.value.0[j] == slots[j])
    decreases n - i
  {
    if i < n {
      var s := if slots[i].Some? then slots[i].value else Slot(0, None);
      var next := slots[i := Some(Slot(FromLittleEndian(data[..4]), s.value))];
      assert ReadSlot(s, data) == Ok((Slot(FromLittleEndian(data[..4]), s.value), data));
      UnknownTypeSticks(next, i + 1, n, data);
    }
  }

  datatype Reading = Reading(name: bytes, slots: seq<Option<Slot>>, rest: bytes)

  function Room(slots: seq<Option<Slot>>, n: nat): (r: seq<Option<Slot>>)
    ensures n <= |r|
  {
    if Low32(|slots|) < n || |slots| < n then Repeat(None, n) else slots
  }

  /** Script.Read: the receiver keeps its slots if it has enough of them. */
  function ReadInto(slots: seq<Option<Slot>>, data: bytes): Result<Reading> {
    if |data| < 4 then Err
    else
      var n := FromLittleEndian(data[..4]);
      match Dslice(data[4..])
      case Err => Err
      case Ok((name, rest)) =>
        match ReadFrom(Room(slots, n), 0, n, rest)
        case Err => Err
        case Ok((read, more)) => Ok(Reading(name, read, more))
  }

  /** What stays of an argument that could not be read: its type has been read if there was one. */
  function HalfRead(s: Slot, data: bytes): Slot {
    if |data| < 4 then s else s.(typ := FromLittleEndian(data[..4]))
  }

  /** The slots as reading arguments i to n leaves them. */
  function LeftFrom(slots: seq<Option<Slot>>, i: nat, n: nat, data: bytes): seq<Option<Slot>>
    requires i <= n <= |slots|
    decreases n - i
  {
    if i == n then slots
    else
      var s := if slots[i].Some? then slots[i].value else Slot(0, None);
      match ReadSlot(s, data)
      case Err => slots[i := Some(HalfRead(s, data))]
      case Ok((a, rest)) => LeftFrom(slots[i := Some(a)], i + 1, n, rest)
  }

  /** The receiver after an error. */
  function LeftByError(name: bytes, slots: seq<Option<Slot>>, data: bytes): (bytes, seq<Option<Slot>>) {
    if |data| < 4 then (name, slots)
    else match Dslice(data[4..])
      case Err => (name, slots)
      case Ok((read, rest)) =>
        var n := FromLittleEndian(data[..4]);
        (read, LeftFrom(Room(slots, n), 0, n, rest))
  }

  /** A failed read leaves the arguments in front of the one it failed on as they were read. */
  lemma {:induction false} ReadUpToError(slots: seq<Option<Slot>>, i: nat, n: nat, data: bytes) returns (j: nat)
    requires i <= n <= |slots| && ReadFrom(slots, i, n, data).Err?
    ensures i <= j < n && ReadFrom(slots, i, j, data).Ok?
    ensures var (read, rest) := ReadFrom(slots, i, j, data).value;
            var s := if slots[j].Some? then slots[j].value else Slot(0, None);
            && ReadSlot(s, rest).Err?
            && LeftFrom(slots, i, n, data) == read[j := Some(HalfRead(s, rest))]
    decreases n - i
  {
    var s := if slots[i].Some? then slots[i].value else Slot(0, None);
    match ReadSlot(s, data)
    case Err => j := i;
    case Ok((a, rest)) => j := ReadUpToError(slots[i := Some(a)], i + 1, n, rest);
  }

  function Somes(args: seq<Slot>): (r: seq<Option<Slot>>)
    ensures |r| == |args| && forall i :: 0 <= i < |args| ==> r[i] == Some(args[i])
  {
    seq(|args|, i requires 0 <= i < |args| => Some(args[i]))
  }

  /** The slots after the arguments have been read into them; those beyond stay. */
  ghost predicate Taken(slots: seq<Option<Slot>>, args: seq<Slot>, r: seq<Option<Slot>>) {
    && |args| <= |slots| == |r|
    && (forall j :: 0 <= j < |args| ==> r[j] == Some(args[j]))
    && (forall j :: |args| <= j < |slots| ==> r[j] == slots[j])
  }

  ghost predicate TakenUpTo(slots: seq<Option<Slot>>, args: seq<Slot>, i: nat) {
    i <= |args| <= |slots| && forall j :: 0 <= j < i ==> slots[j] == Some(args[j])
  }

  lemma TakenNext(slots: seq<Option<Slot>>, args: seq<Slot>, i: nat)
    requires i < |args| && TakenUpTo(slots, args, i)
    ensures TakenUpTo(slots[i := Some(args[i])], args, i + 1)
  {
  }

  lemma TakenBefore(slots: seq<Option<Slot>>, args: seq<Slot>, i: nat, r: seq<Option<Slot>>)
    requires i < |args| <= |slots| && Taken(slots[i := Some(args[i])], args, r)
    ensures Taken(slots, args, r)
  {
  }

  /** Reading arguments from number i on takes the rest of args over and leaves `rest`. */
  ghost predicate ReadsRest(slots: seq<Option<Slot>>, args: seq<Slot>, i: nat, rest: bytes)
    requires i <= |args| <= |slots|
  {
    var r := ReadFrom(slots, i, |args|, ShowFrom(args, i) + rest);
    r.Ok? && r.value.1 == rest && Taken(slots, args, r.value.0)
  }

  lemma {:induction false} ReadShowFrom(slots: seq<Option<Slot>>, args: seq<Slot>, i: nat, rest: bytes)
    requires TakenUpTo(slots, args, i) && |ShowFrom(args, i)| + |rest| < TWO_32
    requires forall j :: 0 <= j < |args| ==> WellTyped(args[j])
    ensures ReadsRest(slots, args, i, rest)
    decreases |args| - i
  {
    if i < |args| {
      ShownAtLeast(args, i);
      TakenNext(slots, args, i);
      ReadShowFrom(slots[i := Some(args[i])], args, i + 1, rest);
      ReadsNext(slots, args, i, rest);
    } else {
      NothingToRead(slots, args, rest);
    }
  }

  lemma NothingToRead(slots: seq<Option<Slot>>, args: seq<Slot>, rest: bytes)
    requires TakenUpTo(slots, args, |args|)
    ensures ReadsRest(slots, args, |args|, rest)
  {
    assert [] + rest == rest;
  }

  lemma ShownAtLeast(args: seq<Slot>, i: nat)
    requires i < |args|
    ensures |ShowFrom(args, i + 1)| <= |ShowFrom(args, i)|
  {
  }

  lemma ReadsNext(slots: seq<Option<Slot>>, args: seq<Slot>, i: nat, rest: bytes)
    requires i < |args| && TakenUpTo(slots, args, i) && ReadsRest(slots[i := Some(args[i])], args, i + 1, rest)
    requires |ShowFrom(args, i)| + |rest| < TWO_32 && WellTyped(args[i])
    ensures ReadsRest(slots, args, i, rest)
  {
    ReadShowOne(slots, args, i, rest);
    TakenBefore(slots, args, i, ReadFrom(slots, i, |args|, ShowFrom(args, i) + rest).value.0);
  }

  lemma ReadShowOne(slots: seq<Option<Slot>>, args: seq<Slot>, i: nat, rest: bytes)
    requires i < |args| <= |slots| && |ShowFrom(args, i)| + |rest| < TWO_32 && WellTyped(args[i])
    ensures ReadFrom(slots, i, |args|, ShowFrom(args, i) + rest)
         == ReadFrom(slots[i := Some(args[i])], i + 1, |args|, ShowFrom(args, i + 1) + rest)
  {
    Associate(ShowSlot(args[i]), ShowFrom(args, i + 1), rest);
    ReadShowSlot(if slots[i].Some? then slots[i].value else Slot(0, None), args[i], ShowFrom(args, i + 1) + rest);
  }

  lemma ReadShowHead(slots: seq<Option<Slot>>, name: bytes, args: seq<Slot>, rest: bytes)
    requires |Shown(name, args)| + |rest| < TWO_32
    ensures var data, tail := Shown(name, args) + rest, ShowFrom(args, 0) + rest;
            && |data| >= 4 && FromLittleEndian(data[..4]) == |args|
            && Dslice(data[4..]) == Ok((name, tail))
  {
    var tail := ShowFrom(args, 0) + rest;
    var show := ShowFrom(args, 0);
    Associate(Put32(|args|), Eslice(name), show);
    Associate(Put32(|args|), Eslice(name) + show, rest);
    Associate(Eslice(name), show, rest);
    TakeDrop(Put32(|args|), Eslice(name) + tail);
    ShownSize(args, 0);
    Put32RoundTrip(|args|);
    DsliceEslice(name, tail);
  }

  lemma {:induction false} ShownSize(args: seq<Slot>, i: nat)
    requires i <= |args|
    ensures |args| - i <= |ShowFrom(args, i)|
    decreases |args| - i
  {
    if i < |args| {
      ShownSize(args, i + 1);
    }
  }

  lemma SameSlots(slots: seq<Option<Slot>>, args: seq<Slot>)
    requires |args| <= |slots| && forall j :: 0 <= j < |args| ==> slots[j] == Some(args[j])
    ensures slots == Somes(args) <==> |slots| == |args|
  {
  }

  /** A script that is shown and read back, whatever bytes follow, has its name and its arguments;
      and it is the same script exactly if the receiver had no more slots than it has arguments,
      since slots beyond them stay as they were. */
  lemma ReadShow(slots: seq<Option<Slot>>, name: bytes, args: seq<Slot>, rest: bytes)
    requires |Shown(name, args)| + |rest| < TWO_32 && |slots| < TWO_32
    requires forall j :: 0 <= j < |args| ==> WellTyped(args[j])
    ensures var r := ReadInto(slots, Shown(name, args) + rest);
            && r.Ok? && r.value.name == name && r.value.rest == rest
            && (forall j :: 0 <= j < |args| ==> j < |r.value.slots| && r.value.slots[j] == Some(args[j]))
            && (r.value.slots == Somes(args) <==> |slots| <= |args|)
  {
    ReadShowHead(slots, name, args, rest);
    ShownSize(args, 0);
    Low32Small(|slots|);
    ReadShowFrom(Room(slots, |args|), args, 0, rest);
    SameSlots(ReadFrom(Room(slots, |args|), 0, |args|, ShowFrom(args, 0) + rest).value.0, args);
  }

  function SlotOf(a: Argument): Slot {
    Slot(a.typ, Some(a.value))
  }

  lemma {:induction false} TakenAreWellTyped(types: seq<nat>, np: Option<Node>)
    requires forall i :: 0 <= i < |types| ==> types[i] <= PERCENTAGE
    ensures var r := TakeArguments(types, np);
            r.Some? ==> forall j :: 0 <= j < |r.value| ==> WellTyped(SlotOf(r.value[j]))
    decreases |types|
  {
    if types != [] && np.Some? {
      TakenAreWellTyped(types[1..], NextArgument(np.value));
    }
  }

  ghost predicate AllWellTyped(xs: seq<Option<Command>>) {
    forall i, j :: 0 <= i < |xs| && xs[i].Some? && 0 <= j < |xs[i].value.args| ==>
      WellTyped(SlotOf(xs[i].value.args[j]))
  }

  lemma {:induction false} OperationsAreWellTyped(ns: seq<Node>, count: nat)
    requires count <= |ns| && forall i :: 0 <= i < |ns| ==> ns[i].CallNode?
    ensures var r := Operations(ns, count); r.Some? ==> AllWellTyped(r.value)
  {
    if count > 0 {
      OperationsAreWellTyped(ns, count - 1);
      TakenAreWellTyped(Signature(ns[0].name), ns[0].args);
    }
  }

  /** Every script the parser builds has a binary form that reads back. */
  lemma ParsedScriptsAreWellTyped(data: bytes)
    ensures AllWellTyped(Scripts(data))
  {
    var r := Calls(PState(None, data));
    if r.Ok? {
      CallsAreCallNodes(PState(None, data));
      OperationsAreWellTyped(r.value, |r.value|);
    }
  }

  // ---------------------------------------------------------------- the Go form

  function Filled(slots: seq<Option<Slot>>): (r: seq<Slot>)
    requires forall i :: 0 <= i < |slots| ==> slots[i].Some?
    ensures |r| == |slots|
    ensures forall i :: 0 <= i < |slots| ==> r[i] == slots[i].value
  {
    seq(|slots|, i requires 0 <= i < |slots| => slots[i].value)
  }

  class Record {
    var name: bytes
    var args: seq<Option<Slot>>

    constructor ()
      ensures name == [] && args == []
    {
      name, args := [], [];
    }

    method Show() returns (buf: bytes)
      requires forall i :: 0 <= i < |args| ==> args[i].Some?
      ensures buf == Shown(name, Filled(args))
    {
      ghost var slots := Filled(args);
      buf := Put32(|args|) + Eslice(name);
      for i := 0 to |args|
        invariant buf + ShowFrom(slots, i) == Shown(name, slots)
      {
        var next := ShowSlot(args[i].value);
        Associate(buf, next, ShowFrom(slots, i + 1));
        buf := buf + next;
      }
      assert buf + [] == buf;
    }

    /** After an error the receiver is left as far as it was filled. */
    method Read(data: bytes) returns (ok: bool, rest: bytes)
      modifies this
      ensures var r := ReadInto(old(args), data);
              ok == r.Ok? && (ok ==> r.value == Reading(name, args, rest))
      ensures !ok ==> rest == [] && (name, args) == LeftByError(old(name), old(args), data)
    {
      rest := [];
      if |data| < 4 {
        return false, [];
      }
      var n := FromLittleEndian(data[..4]);
      var d := Dslice(data[4..]);
      if d.Err? {
        return false, [];
      }
      name, rest := d.value.0, d.value.1;
      args := Room(args, n);
      ghost var whole, left := ReadFrom(args, 0, n, rest), LeftFrom(args, 0, n, rest);
      for i := 0 to n
        invariant n <= |args| && name == d.value.0
        invariant ReadFrom(args, i, n, rest) == whole && LeftFrom(args, i, n, rest) == left
      {
        ghost var before := args;
        if args[i] == None {
          args := args[i := Some(Slot(0, None))];
        }
        var a := ReadSlot(args[i].value, rest);
        if a.Err? {
          if |rest| >= 4 {
            args := args[i := Some(args[i].value.(typ := FromLittleEndian(rest[..4])))];
          }
          assert args == before[i := Some(HalfRead(if before[i].Some? then before[i].value else Slot(0, None), rest))];
          return false, [];
        }
        args := args[i := Some(a.value.0)];
        assert args == before[i := Some(a.value.0)];
        rest := a.value.1;
      }
      assert ReadFrom(args, n, n, rest) == Ok((args, rest));
      ok := true;
    }
  }
}
