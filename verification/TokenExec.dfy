/** The executor of token scripts (contract/exec/exec.go): commands write an overlay map over
    the contract store, and the overlay is flushed at the end. */
module TokenExec {
  import opened Bytes
  import opened Options
  import M = Merkle

  type KV = map<bytes, bytes>

  datatype Call =
    | New(id: bytes, total: uint64)
    | Mint(id: bytes, amount: uint64)
    | Transfer(id: bytes, amount: uint64, to: bytes)
    | Freeze(id: bytes, addr: bytes)
    | Unfreeze(id: bytes, addr: bytes)

  // ---------------------------------------------------------------- keys

  const B: byte := 98
  const F: byte := 102
  const T: byte := 116
  const SLASH: byte := 47

  function AKey(id: bytes): bytes { id }
  function BKey(id: bytes, addr: bytes): bytes { [B, SLASH] + id + addr }
  function FKey(id: bytes, addr: bytes): bytes { [F, SLASH] + id + addr }
  function TKey(id: bytes, addr: bytes): bytes { [T, SLASH] + id + addr }

  /** For instance, of token "K" and address "a": b/Ka, f/Ka and t/Ka. */
  lemma KeyTexts()
    ensures BKey([75], [97]) == [98, 47, 75, 97]
    ensures FKey([75], [97]) == [102, 47, 75, 97]
    ensures TKey([75], [97]) == [116, 47, 75, 97]
  {
  }

  predicate InFamily(k: bytes, c: byte) {
    |k| >= 2 && k[0] == c && k[1] == SLASH
  }

  /** An id that cannot be taken for a key of one of the three prefixed families. */
  predicate PlainId(id: bytes) {
    !InFamily(id, B) && !InFamily(id, F) && !InFamily(id, T)
  }

  /** The four key families are disjoint, and with addresses of one length each is injective. */
  lemma KeyFamilies(id: bytes, a: bytes, id': bytes, a': bytes)
    requires |a| == |a'|
    ensures BKey(id, a) == BKey(id', a') <==> id == id' && a == a'
    ensures FKey(id, a) == FKey(id', a') <==> id == id' && a == a'
    ensures TKey(id, a) == TKey(id', a') <==> id == id' && a == a'
    ensures BKey(id, a) != FKey(id', a') && BKey(id, a) != TKey(id', a') && FKey(id, a) != TKey(id', a')
    ensures PlainId(id') ==> AKey(id') !in {BKey(id, a), FKey(id, a), TKey(id, a)}
  {
    SplitKey(B, id, a, id', a');
    SplitKey(F, id, a, id', a');
    SplitKey(T, id, a, id', a');
    assert BKey(id, a)[0] == B && FKey(id', a')[0] == F && TKey(id', a')[0] == T && FKey(id, a)[0] == F;
    assert InFamily(BKey(id, a), B) && InFamily(FKey(id, a), F) && InFamily(TKey(id, a), T);
  }

  lemma SplitKey(c: byte, id: bytes, a: bytes, id': bytes, a': bytes)
    requires |a| == |a'|
    ensures [c, SLASH] + id + a == [c, SLASH] + id' + a' <==> id == id' && a == a'
  {
    var k, k' := [c, SLASH] + id + a, [c, SLASH] + id' + a';
    if k == k' {
      assert |id| == |id'|;
      assert id == k[2..2 + |id|] && id' == k'[2..2 + |id|];
      assert a == k[2 + |id|..] && a' == k'[2 + |id|..];
    }
  }

  // ---------------------------------------------------------------- reading

  function U64(v: bytes): uint64
    requires |v| >= 8
  {
    Get64(v[..8])
  }

  /** Balances are stored in eight bytes; reading a shorter value would make Go panic. */
  ghost predicate WellStored(kv: KV) {
    forall k :: k in kv && InFamily(k, B) ==> |kv[k]| >= 8
  }

  /** A balance as the store has it; a missing key counts as zero. */
  function Balance(kv: KV, id: bytes, addr: bytes): uint64
    requires WellStored(kv)
  {
    var k := BKey(id, addr);
    assert InFamily(k, B);
    if k in kv then U64(kv[k]) else 0
  }

  predicate Frozen(kv: KV, id: bytes, addr: bytes) {
    FKey(id, addr) in kv && kv[FKey(id, addr)] == [1]
  }

  predicate OwnedBy(kv: KV, id: bytes, executor: bytes) {
    AKey(id) in kv && kv[AKey(id)] == executor
  }

  // ---------------------------------------------------------------- one command

  /** The overlay after one command. Balances, freezes and the check for an existing token look
      through the overlay; the owner of a token is looked up in the store alone. */
  function Deal(db: KV, executor: bytes, mp: KV, c: Call): Result<KV>
    requires WellStored(db) && WellStored(mp)
  {
    match c
    case New(id, total) =>
      if AKey(id) in mp || AKey(id) in db then Err
      else Ok(mp[id := executor][BKey(id, executor) := Put64(0)]
                [TKey(id, executor) := Put64(total)][FKey(id, executor) := [0]])
    case Mint(id, amount) =>
      if !OwnedBy(db, id, executor) then Err
      else
        var b := if BKey(id, executor) in mp then Balance(mp, id, executor) else Balance(db, id, executor);
        Ok(mp[BKey(id, executor) := Put64(Add64(b, amount))])
    case Transfer(id, amount, to) =>
      if AKey(id) !in db then Err
      else if (if FKey(id, executor) in mp then Frozen(mp, id, executor) else Frozen(db, id, executor)) then Err
      else
        var b := if BKey(id, executor) in mp then Balance(mp, id, executor) else Balance(db, id, executor);
        if b < amount then Err
        else
          var t := if BKey(id, to) in mp then Balance(mp, id, to) else Balance(db, id, to);
          Ok(mp[BKey(id, executor) := Put64(b - amount)][BKey(id, to) := Put64(Add64(t, amount))])
    case Freeze(id, addr) =>
      if !OwnedBy(db, id, executor) then Err else Ok(mp[FKey(id, addr) := [1]])
    case Unfreeze(id, addr) =>
      if !OwnedBy(db, id, executor) then Err else Ok(mp[FKey(id, addr) := [0]])
  }

  lemma DealKeepsStored(db: KV, executor: bytes, mp: KV, c: Call)
    requires WellStored(db) && WellStored(mp) && |executor| >= 8
    ensures Deal(db, executor, mp, c).Ok? ==> WellStored(Deal(db, executor, mp, c).value)
  {
  }

  /** The overlay after a list of commands; one failure fails the list. */
  function Overlay(db: KV, executor: bytes, mp: KV, cs: seq<Call>): Result<KV>
    requires WellStored(db) && WellStored(mp) && |executor| >= 8
    decreases |cs|
  {
    if cs == [] then Ok(mp)
    else
      DealKeepsStored(db, executor, mp, cs[0]);
      match Deal(db, executor, mp, cs[0])
      case Err => Err
      case Ok(mp1) => Overlay(db, executor, mp1, cs[1..])
  }

  lemma PrefixedKeys(id: bytes, addr: bytes)
    ensures InFamily(BKey(id, addr), B) && InFamily(FKey(id, addr), F) && InFamily(TKey(id, addr), T)
  {
  }

  /** What stands under a balance key, as the executor reads it. */
  function Read(db: KV, mp: KV, k: bytes): uint64
    requires WellStored(db) && WellStored(mp) && InFamily(k, B)
  {
    if k in mp then U64(mp[k]) else if k in db then U64(db[k]) else 0
  }

  lemma TransferIs(db: KV, executor: bytes, mp: KV, id: bytes, amount: uint64, to: bytes)
    requires WellStored(db) && WellStored(mp)
    ensures InFamily(BKey(id, executor), B) && InFamily(BKey(id, to), B)
    ensures var k, j, f := BKey(id, executor), BKey(id, to), FKey(id, executor);
            var b, t := Read(db, mp, k), Read(db, mp, j);
            Deal(db, executor, mp, Transfer(id, amount, to)) ==
            if AKey(id) !in db || (if f in mp then mp[f] == [1] else f in db && db[f] == [1]) || b < amount then Err
            else Ok(mp[k := Put64(b - amount)][j := Put64(Add64(t, amount))])
  {
  }

  // ---------------------------------------------------------------- flushing, and the root

  /** The store after Flush: it refuses an empty key, and with it the whole overlay. */
  function FlushInto(db: KV, mp: KV): KV {
    if [] in mp then db else db + mp
  }

  /** The keys of mp, sorted. */
  ghost predicate Listing(mp: KV, ss: seq<bytes>) {
    && (forall k :: k in ss <==> k in mp)
    && forall i, j :: 0 <= i < j < |ss| ==> Before(ss[i], ss[j])
  }

  /** Keys and values in turn. */
  function RootItems(mp: KV, ss: seq<bytes>): seq<bytes>
    requires forall k :: k in ss ==> k in mp
  {
    if ss == [] then [] else [ss[0], mp[ss[0]]] + RootItems(mp, ss[1..])
  }

  /** The root of an overlay: nil for an empty one, None where Go dereferences a nil tree. */
  function RootOf(h: M.Hash, mp: KV, ss: seq<bytes>): Option<bytes>
    requires forall k :: k in ss ==> k in mp
  {
    var xs := RootItems(mp, ss);
    if xs == [] then Some([])
    else match M.New(h, xs) case None => None case Some(t) => Some(t.root)
  }

  /** An overlay with an empty key or value has no root. */
  predicate Rootless(mp: KV) {
    exists k :: k in mp && (k == [] || mp[k] == [])
  }

  lemma {:induction false} ItemsOf(mp: KV, ss: seq<bytes>)
    requires forall k :: k in ss ==> k in mp
    ensures |RootItems(mp, ss)| == 2 * |ss|
    ensures M.NoEmptyItem(RootItems(mp, ss)) <==> forall k :: k in ss ==> k != [] && mp[k] != []
  {
    if ss != [] {
      ItemsOf(mp, ss[1..]);
      var rest, xs := RootItems(mp, ss[1..]), RootItems(mp, ss);
      assert forall i :: 0 <= i < |rest| ==> xs[i + 2] == rest[i];
      assert xs[0] == ss[0] && xs[1] == mp[ss[0]];
      assert forall i :: 2 <= i < |xs| ==> rest[i - 2] == xs[i];
    }
  }

  /** That is when taking the root panics. */
  lemma RootPanicsIff(h: M.Hash, mp: KV, ss: seq<bytes>)
    requires Listing(mp, ss)
    ensures RootOf(h, mp, ss) == None <==> Rootless(mp)
  {
    ItemsOf(mp, ss);
    if ss != [] {
      M.Construction(h, RootItems(mp, ss));
    }
  }

  /** For an overlay of one entry the tree hashes its key in front of its value. */
  lemma RootOfOne(h: M.Hash, k: bytes, v: bytes)
    requires k != [] && v != []
    ensures RootOf(h, map[k := v], [k]) == Some(h(h(k) + h(v)))
  {
    var xs := RootItems(map[k := v], [k]);
    assert [k][1..] == [];
    assert RootItems(map[k := v], []) == [];
    assert xs == [k, v];
    M.TreeHashSplits(h, xs);
    M.Construction(h, xs);
    assert xs[..1] == [k] && xs[1..] == [v];
  }

  predicate CreatesEmpty(cs: seq<Call>) {
    exists i :: 0 <= i < |cs| && cs[i].New? && cs[i].id == []
  }

  lemma CreatesEmptyTail(cs: seq<Call>)
    requires cs != []
    ensures CreatesEmpty(cs) <==> (cs[0].New? && cs[0].id == []) || CreatesEmpty(cs[1..])
  {
    if i :| 0 <= i < |cs| && cs[i].New? && cs[i].id == [] {
      assert i > 0 ==> cs[1..][i - 1] == cs[i];
    }
    if i :| 0 <= i < |cs| - 1 && cs[1..][i].New? && cs[1..][i].id == [] {
      assert cs[i + 1] == cs[1..][i];
    }
  }

  lemma DealRootless(db: KV, executor: bytes, mp: KV, c: Call)
    requires WellStored(db) && WellStored(mp) && executor != [] && Deal(db, executor, mp, c).Ok?
    ensures var mp1 := Deal(db, executor, mp, c).value;
            && ([] in mp1 <==> [] in mp || (c.New? && c.id == []))
            && (Rootless(mp1) ==> Rootless(mp) || (c.New? && c.id == []))
            && ((forall k :: k in mp ==> mp[k] != []) ==> forall k :: k in mp1 ==> mp1[k] != [])
  {
  }

  /** An overlay gets an empty key just by a command that creates a token with the empty id, and never
      an empty value. */
  lemma {:induction false} EmptyKeyIff(db: KV, executor: bytes, mp: KV, cs: seq<Call>)
    requires WellStored(db) && WellStored(mp) && |executor| >= 8 && Overlay(db, executor, mp, cs).Ok?
    requires forall k :: k in mp ==> mp[k] != []
    ensures var r := Overlay(db, executor, mp, cs).value;
            && ([] in r <==> [] in mp || CreatesEmpty(cs))
            && (forall k :: k in r ==> r[k] != [])
            && (Rootless(r) <==> [] in r)
    decreases |cs|
  {
    if cs != [] {
      DealKeepsStored(db, executor, mp, cs[0]);
      DealRootless(db, executor, mp, cs[0]);
      CreatesEmptyTail(cs);
      EmptyKeyIff(db, executor, Deal(db, executor, mp, cs[0]).value, cs[1..]);
    }
  }

  // ---------------------------------------------------------------- the Go form

  class Exec {
    var db: KV   // the contract store
    var mp: KV   // the overlay

    constructor (db: KV)
      ensures this.db == db && mp == map[]
    {
      this.db := db;
      mp := map[];
    }

    method ReadBalance(k: bytes) returns (b: uint64)
      requires WellStored(db) && WellStored(mp) && InFamily(k, B)
      ensures b == Read(db, mp, k)
    {
      if k in mp {
        b := U64(mp[k]);
      } else if k in db {
        b := U64(db[k]);
      } else {
        b := 0;
      }
    }

    method ReadFrozen(k: bytes) returns (frozen: bool)
      ensures frozen == if k in mp then mp[k] == [1] else k in db && db[k] == [1]
    {
      if k in mp {
        frozen := mp[k] == [1];
      } else {
        frozen := k in db && db[k] == [1];
      }
    }

    method DealNew(executor: bytes, id: bytes, total: uint64) returns (ok: bool)
      requires WellStored(db) && WellStored(mp)
      modifies this`mp
      ensures var r := Deal(db, executor, old(mp), New(id, total));
              ok == r.Ok? && mp == if ok then r.value else old(mp)
    {
      if AKey(id) in mp || AKey(id) in db {
        return false;
      }
      mp := mp[id := executor];
      mp := mp[BKey(id, executor) := Put64(0)];
      mp := mp[TKey(id, executor) := Put64(total)];
      mp := mp[FKey(id, executor) := [0]];
      return true;
    }

    method DealMint(executor: bytes, id: bytes, amount: uint64) returns (ok: bool)
      requires WellStored(db) && WellStored(mp)
      modifies this`mp
      ensures var r := Deal(db, executor, old(mp), Mint(id, amount));
              ok == r.Ok? && mp == if ok then r.value else old(mp)
    {
      if AKey(id) !in db || db[AKey(id)] != executor {
        return false;
      }
      var b := ReadBalance(BKey(id, executor));
      mp := mp[BKey(id, executor) := Put64(Add64(b, amount))];
      return true;
    }

    method DealTransfer(executor: bytes, id: bytes, amount: uint64, to: bytes) returns (ok: bool)
      requires WellStored(db) && WellStored(mp)
      modifies this`mp
      ensures var r := Deal(db, executor, old(mp), Transfer(id, amount, to));
              ok == r.Ok? && mp == if ok then r.value else old(mp)
    {
      TransferIs(db, executor, mp, id, amount, to);
      if AKey(id) !in db {
        return false;
      }
      var frozen := ReadFrozen(FKey(id, executor));
      if frozen {
        return false;
      }
      var b := ReadBalance(BKey(id, executor));
      if b < amount {
        return false;
      }
      var t := ReadBalance(BKey(id, to));
      mp := mp[BKey(id, executor) := Put64(b - amount)];
      mp := mp[BKey(id, to) := Put64(Add64(t, amount))];
      return true;
    }

    method DealFreeze(executor: bytes, id: bytes, addr: bytes, flag: byte) returns (ok: bool)
      requires WellStored(db) && WellStored(mp) && flag <= 1
      modifies this`mp
      ensures var r := Deal(db, executor, old(mp), if flag == 1 then Freeze(id, addr) else Unfreeze(id, addr));
              ok == r.Ok? && mp == if ok then r.value else old(mp)
    {
      if AKey(id) !in db || db[AKey(id)] != executor {
        return false;
      }
      mp := mp[FKey(id, addr) := [flag]];
      return true;
    }

    /** New: the registered functions run one after the other on the same overlay. */
    method Run(executor: bytes, cs: seq<Call>) returns (ok: bool)
      requires WellStored(db) && mp == map[] && |executor| >= 8
      modifies this`mp
      ensures var r := Overlay(db, executor, map[], cs); ok == r.Ok? && (ok ==> mp == r.value)
    {
      for i := 0 to |cs|
        invariant WellStored(mp)
        invariant Overlay(db, executor, map[], cs) == Overlay(db, executor, mp, cs[i..])
      {
        DealKeepsStored(db, executor, mp, cs[i]);
        assert cs[i..][0] == cs[i] && cs[i..][1..] == cs[i + 1..];
        match cs[i] {
          case New(id, total) => ok := DealNew(executor, id, total);
          case Mint(id, amount) => ok := DealMint(executor, id, amount);
          case Transfer(id, amount, to) => ok := DealTransfer(executor, id, amount, to);
          case Freeze(id, addr) => ok := DealFreeze(executor, id, addr, 1);
          case Unfreeze(id, addr) => ok := DealFreeze(executor, id, addr, 0);
        }
        if !ok {
          return;
        }
      }
      return true;
    }

    /** False when the store refuses an empty key; nothing is written then. */
    method Flush() returns (ok: bool)
      modifies this`db
      ensures ok == ([] !in mp) && db == FlushInto(old(db), mp)
    {
      ok, db := WriteAll(db, mp);
    }

    /** The loop of Root over the sorted keys; None stands for the panic on a tree that is nil. */
    method Root(h: M.Hash, ss: seq<bytes>) returns (r: Option<bytes>)
      requires Listing(mp, ss)
      ensures r == RootOf(h, mp, ss)
    {
      var xs := [];
      for i := 0 to |ss|
        invariant xs + RootItems(mp, ss[i..]) == RootItems(mp, ss)
      {
        assert ss[i..][0] == ss[i] && ss[i..][1..] == ss[i + 1..] && ss[i] in mp;
        assert xs + RootItems(mp, ss[i..]) == (xs + [ss[i], mp[ss[i]]]) + RootItems(mp, ss[i + 1..]);
        xs := xs + [ss[i], mp[ss[i]]];
      }
      assert xs + [] == xs;
      if xs == [] {
        return Some([]);
      }
      var tree := M.New(h, xs);
      return if tree == None then None else Some(tree.value.root);
    }
  }

  /** The loop of Flush: sets the entries of mp in a transaction, in any order; the store takes no
      empty key, and then the transaction is given up. */
  method WriteAll(db: KV, mp: KV) returns (ok: bool, tx: KV)
    ensures ok == ([] !in mp) && tx == FlushInto(db, mp)
  {
    tx := db;
    var left := mp.Keys;
    while left != {}
      invariant left <= mp.Keys && ([] in mp ==> [] in left) && Written(db, mp, left, tx)
      decreases |left|
    {
      var k :| k in left;
      if k == [] {
        return false, db;
      }
      WriteNext(db, mp, left, tx, k);
      tx := tx[k := mp[k]];
      left := left - {k};
    }
    AllWritten(db, mp, tx);
    return true, tx;
  }

  lemma AllWritten(db: KV, mp: KV, tx: KV)
    requires Written(db, mp, {}, tx)
    ensures tx == db + mp
  {
  }

  /** All of mp but the keys in left has been set. */
  ghost predicate Written(db: KV, mp: KV, left: set<bytes>, tx: KV) {
    && (forall k :: k in tx <==> k in db || (k in mp && k !in left))
    && forall k :: k in tx ==> tx[k] == if k in mp && k !in left then mp[k] else db[k]
  }

  lemma WriteNext(db: KV, mp: KV, left: set<bytes>, tx: KV, k: bytes)
    requires Written(db, mp, left, tx) && k in left && k in mp
    ensures Written(db, mp, left - {k}, tx[k := mp[k]])
  {
  }

  // ---------------------------------------------------------------- overlay and direct execution

  /** Running each command on the store in turn. */
  function Direct(db: KV, executor: bytes, cs: seq<Call>): Result<KV>
    requires WellStored(db) && |executor| >= 8
    decreases |cs|
  {
    if cs == [] then Ok(db)
    else
      DealKeepsStored(db, executor, map[], cs[0]);
      match Deal(db, executor, map[], cs[0])
      case Err => Err
      case Ok(mp) => Direct(db + mp, executor, cs[1..])
  }

  predicate PlainIds(cs: seq<Call>) {
    forall i :: 0 <= i < |cs| ==> PlainId(cs[i].id)
  }

  /** No command other than `new` names a token in `created` or one created earlier in the list. */
  predicate NoReuse(created: set<bytes>, cs: seq<Call>)
    decreases |cs|
  {
    cs == [] ||
    if cs[0].New? then NoReuse(created + {cs[0].id}, cs[1..])
    else cs[0].id !in created && NoReuse(created, cs[1..])
  }

  /** The overlay has created exactly the tokens in `created`, none of which the store knows. */
  ghost predicate Creates(db: KV, mp: KV, created: set<bytes>) {
    forall id :: PlainId(id) ==> (id in created <==> id in mp) && !(id in created && id in db)
  }

  lemma UnionUpdate(db: KV, mp: KV, k: bytes, v: bytes)
    ensures db + mp[k := v] == (db + mp)[k := v]
  {
  }

  lemma FourWrites(db: KV, mp: KV, i: bytes, u: bytes, j: bytes, v: bytes, k: bytes, w: bytes, l: bytes, x: bytes)
    ensures db + mp[i := u][j := v][k := w][l := x] == (db + mp) + map[][i := u][j := v][k := w][l := x]
  {
  }

  lemma OverlayNew(db: KV, executor: bytes, mp: KV, created: set<bytes>, id: bytes, total: uint64)
    requires WellStored(db) && WellStored(mp) && WellStored(db + mp)
    requires PlainId(id) && Creates(db, mp, created)
    ensures var c := New(id, total); var r, d := Deal(db, executor, mp, c), Deal(db + mp, executor, map[], c);
            (r.Ok? <==> d.Ok?) && (r.Ok? ==> db + r.value == (db + mp) + d.value)
    ensures var r := Deal(db, executor, mp, New(id, total)); r.Ok? ==> Creates(db, r.value, created + {id})
  {
    PrefixedKeys(id, executor);
    FourWrites(db, mp, id, executor, BKey(id, executor), Put64(0), TKey(id, executor), Put64(total),
               FKey(id, executor), [0]);
  }

  /** The other commands write only prefixed keys, so they create nothing. */
  lemma OverlayOther(db: KV, executor: bytes, mp: KV, created: set<bytes>, c: Call)
    requires WellStored(db) && WellStored(mp) && WellStored(db + mp)
    requires !c.New? && PlainId(c.id) && Creates(db, mp, created)
    ensures c.id in created ==> Deal(db, executor, mp, c).Err?
    ensures c.id !in created ==>
              var r, d := Deal(db, executor, mp, c), Deal(db + mp, executor, map[], c);
              (r.Ok? <==> d.Ok?) && (r.Ok? ==> db + r.value == (db + mp) + d.value)
  {
    if c.id !in created {
      assert c.id !in mp;
      assert OwnedBy(db, c.id, executor) == OwnedBy(db + mp, c.id, executor);
      match c {
        case Mint(id, amount) =>
          var b := Add64(Balance(db + mp, id, executor), amount);
          UnionUpdate(db, mp, BKey(id, executor), Put64(b));
          UnionUpdate(db + mp, map[], BKey(id, executor), Put64(b));
        case Transfer(id, amount, to) =>
          OverlayTransfer(db, executor, mp, id, amount, to);
        case Freeze(id, addr) =>
          UnionUpdate(db, mp, FKey(id, addr), [1]);
          UnionUpdate(db + mp, map[], FKey(id, addr), [1]);
        case Unfreeze(id, addr) =>
          UnionUpdate(db, mp, FKey(id, addr), [0]);
          UnionUpdate(db + mp, map[], FKey(id, addr), [0]);
      }
      assert (db + mp) + map[] == db + mp;
    }
  }

  lemma ReadThrough(db: KV, mp: KV, id: bytes, addr: bytes)
    requires WellStored(db) && WellStored(mp) && WellStored(db + mp)
    ensures (if BKey(id, addr) in mp then Balance(mp, id, addr) else Balance(db, id, addr))
         == Balance(db + mp, id, addr)
    ensures (if FKey(id, addr) in mp then Frozen(mp, id, addr) else Frozen(db, id, addr))
         == Frozen(db + mp, id, addr)
  {
  }

  lemma TwoWrites(db: KV, mp: KV, j: bytes, v: bytes, k: bytes, w: bytes)
    ensures db + mp[j := v][k := w] == (db + mp) + map[][j := v][k := w]
  {
  }

  predicate TransferRefused(v: KV, executor: bytes, id: bytes, amount: uint64)
    requires WellStored(v)
  {
    AKey(id) !in v || Frozen(v, id, executor) || Balance(v, id, executor) < amount
  }

  /** A transfer reads the store through the overlay. */
  lemma TransferReads(db: KV, mp: KV, executor: bytes, id: bytes, amount: uint64, to: bytes)
    requires WellStored(db) && WellStored(mp) && WellStored(db + mp) && id !in mp
    ensures Deal(db, executor, mp, Transfer(id, amount, to)) ==
            var v := db + mp;
            if TransferRefused(v, executor, id, amount) then Err
            else Ok(mp[BKey(id, executor) := Put64(Balance(v, id, executor) - amount)]
                      [BKey(id, to) := Put64(Add64(Balance(v, id, to), amount))])
  {
    ReadThrough(db, mp, id, executor);
    ReadThrough(db, mp, id, to);
  }

  lemma OverlayTransfer(db: KV, executor: bytes, mp: KV, id: bytes, amount: uint64, to: bytes)
    requires WellStored(db) && WellStored(mp) && WellStored(db + mp)
    requires id !in mp
    ensures var c := Transfer(id, amount, to);
            var r, d := Deal(db, executor, mp, c), Deal(db + mp, executor, map[], c);
            (r.Ok? <==> d.Ok?) && (r.Ok? ==> db + r.value == (db + mp) + d.value)
  {
    var v := db + mp;
    TransferReads(db, mp, executor, id, amount, to);
    assert WellStored(v + map[]) && v + map[] == v;
    TransferReads(v, map[], executor, id, amount, to);
    if TransferRefused(v, executor, id, amount) {
    } else {
      var b, t := Balance(v, id, executor), Balance(v, id, to);
      TwoWrites(db, mp, BKey(id, executor), Put64(b - amount), BKey(id, to), Put64(Add64(t, amount)));
    }
  }

  lemma CreatesNothing(db: KV, executor: bytes, mp: KV, created: set<bytes>, c: Call)
    requires WellStored(db) && WellStored(mp)
    requires !c.New? && Creates(db, mp, created)
    ensures var r := Deal(db, executor, mp, c); r.Ok? ==> Creates(db, r.value, created)
  {
    PrefixedKeys(c.id, executor);
    if c.Transfer? {
      PrefixedKeys(c.id, c.to);
    } else if c.Freeze? || c.Unfreeze? {
      PrefixedKeys(c.id, c.addr);
    }
  }

  /** One command on the overlay is the same command run directly on what store and overlay show
      together, unless it uses a token that only the overlay knows: then the overlay fails. */
  lemma OverlayStep(db: KV, executor: bytes, mp: KV, created: set<bytes>, c: Call)
    requires WellStored(db) && WellStored(mp)
    requires PlainId(c.id) && Creates(db, mp, created)
    ensures WellStored(db + mp)
    ensures !c.New? && c.id in created ==> Deal(db, executor, mp, c).Err?
    ensures c.New? || c.id !in created ==>
              var r, d := Deal(db, executor, mp, c), Deal(db + mp, executor, map[], c);
              (r.Ok? <==> d.Ok?) && (r.Ok? ==> db + r.value == (db + mp) + d.value)
    ensures var r := Deal(db, executor, mp, c);
            r.Ok? ==> Creates(db, r.value, if c.New? then created + {c.id} else created)
  {
    if c.New? {
      OverlayNew(db, executor, mp, created, c.id, c.total);
    } else {
      OverlayOther(db, executor, mp, created, c);
      CreatesNothing(db, executor, mp, created, c);
    }
  }

  lemma {:induction false} OverlayIsDirect(db: KV, executor: bytes, mp: KV, created: set<bytes>, cs: seq<Call>)
    requires WellStored(db) && WellStored(mp) && |executor| >= 8
    requires PlainIds(cs) && Creates(db, mp, created)
    ensures WellStored(db + mp)
    ensures Overlay(db, executor, mp, cs).Ok? <==> Direct(db + mp, executor, cs).Ok? && NoReuse(created, cs)
    ensures Overlay(db, executor, mp, cs).Ok? ==>
              db + Overlay(db, executor, mp, cs).value == Direct(db + mp, executor, cs).value
    decreases |cs|
  {
    if cs != [] {
      var c := cs[0];
      OverlayStep(db, executor, mp, created, c);
      var r := Deal(db, executor, mp, c);
      DealKeepsStored(db, executor, mp, c);
      if r.Ok? {
        var next := if c.New? then created + {c.id} else created;
        assert PlainIds(cs[1..]);
        OverlayIsDirect(db, executor, r.value, next, cs[1..]);
      }
    }
  }

  /** What executing one list of commands does to the store: everything or nothing. */
  function Execute(db: KV, executor: bytes, cs: seq<Call>): KV
    requires WellStored(db) && |executor| >= 8
  {
    match Overlay(db, executor, map[], cs)
    case Err => db
    case Ok(mp) => FlushInto(db, mp)
  }

  /** Both New and Flush succeed. */
  predicate TakesEffect(db: KV, executor: bytes, cs: seq<Call>)
    requires WellStored(db) && |executor| >= 8
  {
    var r := Overlay(db, executor, map[], cs); r.Ok? && [] !in r.value
  }

  /** A list takes effect exactly when its commands succeed one by one, none uses a token created in
      the same list and none creates a token with the empty id; then the effect is that of running
      them one by one. */
  lemma ExecuteIsDirect(db: KV, executor: bytes, cs: seq<Call>)
    requires WellStored(db) && |executor| >= 8 && PlainIds(cs)
    ensures Overlay(db, executor, map[], cs).Ok? <==> Direct(db, executor, cs).Ok? && NoReuse({}, cs)
    ensures TakesEffect(db, executor, cs) <==>
            Direct(db, executor, cs).Ok? && NoReuse({}, cs) && !CreatesEmpty(cs)
    ensures Execute(db, executor, cs) ==
            if TakesEffect(db, executor, cs) then Direct(db, executor, cs).value else db
  {
    assert db + map[] == db;
    OverlayIsDirect(db, executor, map[], {}, cs);
    if Overlay(db, executor, map[], cs).Ok? {
      EmptyKeyIff(db, executor, map[], cs);
    }
  }

  /** exec.New followed by Flush, on the object. */
  method RunAndFlush(e: Exec, executor: bytes, cs: seq<Call>) returns (ok: bool)
    requires WellStored(e.db) && e.mp == map[] && |executor| >= 8
    modifies e
    ensures e.db == Execute(old(e.db), executor, cs)
    ensures ok == TakesEffect(old(e.db), executor, cs)
  {
    ok := e.Run(executor, cs);
    if ok {
      ok := e.Flush();
    }
  }
}
