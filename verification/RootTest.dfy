/** The test of a block's scripts (blockchain/blockchain.go: Checkresults): each must write what its
    transaction's root says, on the store as it is before the block. What that determines. */
module RootTest {
  import opened Bytes
  import opened Options
  import opened Rewards
  import opened Ledger
  import M = Merkle
  import S = Script
  import T = TokenExec

  // ---------------------------------------------------------------- a root determines what is under it

  ghost predicate Collides(h: M.Hash, t: M.Node, u: M.Node) {
    !M.CollisionFree(h, M.HashedIn(t) + M.HashedIn(u))
  }

  /** Two lists of the same length have the same root only if they are the same, or the hash collides. */
  lemma {:induction false} RootBinds(h: M.Hash, size: nat, xs: seq<bytes>, ys: seq<bytes>)
    requires 0 < |xs| == |ys| && M.DigestSize(h, size)
    requires M.MkMerkleTreeRoot(h, xs).Some? && M.MkMerkleTreeRoot(h, ys).Some?
    requires var t, u := M.MkMerkleTreeRoot(h, xs).value, M.MkMerkleTreeRoot(h, ys).value;
             !Collides(h, t, u) && t.root == u.root
    ensures xs == ys
    decreases |xs|
  {
    var t, u := M.MkMerkleTreeRoot(h, xs).value, M.MkMerkleTreeRoot(h, ys).value;
    if |xs| == 1 {
      assert xs[0] in M.HashedIn(t) && ys[0] in M.HashedIn(u);
    } else {
      var i := M.PowerOfTwo(|xs|);
      SplitTree(h, xs);
      SplitTree(h, ys);
      RootSizeIs(h, size, xs[..i]);
      RootSizeIs(h, size, ys[..i]);
      BranchesApart(h, size, t, u);
      RootBinds(h, size, xs[..i], ys[..i]);
      RootBinds(h, size, xs[i..], ys[i..]);
      assert xs == xs[..i] + xs[i..] && ys == ys[..i] + ys[i..];
    }
  }

  lemma RootSizeIs(h: M.Hash, size: nat, xs: seq<bytes>)
    requires xs != [] && M.DigestSize(h, size) && M.MkMerkleTreeRoot(h, xs).Some?
    ensures |M.MkMerkleTreeRoot(h, xs).value.root| == size
  {
  }

  lemma SplitTree(h: M.Hash, xs: seq<bytes>)
    requires |xs| > 1 && M.MkMerkleTreeRoot(h, xs).Some?
    ensures var i, t := M.PowerOfTwo(|xs|), M.MkMerkleTreeRoot(h, xs).value;
            && 0 < i < |xs| && t.Branch? && t.root == h(t.left.root + t.right.root)
            && M.MkMerkleTreeRoot(h, xs[..i]) == Some(t.left) && M.MkMerkleTreeRoot(h, xs[i..]) == Some(t.right)
  {
    M.TreeHashSplits(h, xs);
  }

  lemma BranchesApart(h: M.Hash, size: nat, t: M.Node, u: M.Node)
    requires t.Branch? && u.Branch? && t.root == u.root && !Collides(h, t, u) && M.DigestSize(h, size)
    requires t.root == h(t.left.root + t.right.root) && u.root == h(u.left.root + u.right.root)
    requires |t.left.root| == |u.left.root|
    ensures t.left.root == u.left.root && t.right.root == u.right.root
    ensures !Collides(h, t.left, u.left) && !Collides(h, t.right, u.right)
  {
    var a, b := t.left.root + t.right.root, u.left.root + u.right.root;
    assert a in M.HashedIn(t) && b in M.HashedIn(u);
    assert t.left.root == a[..|t.left.root|] && u.left.root == b[..|t.left.root|];
    assert t.right.root == a[|t.left.root|..] && u.right.root == b[|t.left.root|..];
  }

  /** All that is hashed for the root of an overlay. */
  ghost function RootInputs(h: M.Hash, mp: T.KV, ss: seq<bytes>): set<bytes>
    requires forall k :: k in ss ==> k in mp
  {
    var xs := T.RootItems(mp, ss);
    if xs == [] || M.New(h, xs) == None then {} else M.HashedIn(M.New(h, xs).value)
  }

  lemma {:induction false} ItemsDetermine(mp: T.KV, ss: seq<bytes>, mp1: T.KV, ss1: seq<bytes>)
    requires (forall k :: k in ss ==> k in mp) && (forall k :: k in ss1 ==> k in mp1)
    requires T.RootItems(mp, ss) == T.RootItems(mp1, ss1)
    ensures ss == ss1 && forall k :: k in ss ==> mp[k] == mp1[k]
  {
    if ss != [] && ss1 != [] {
      var xs, ys := T.RootItems(mp, ss), T.RootItems(mp1, ss1);
      assert xs[0] == ss[0] && xs[1] == mp[ss[0]] && ys[0] == ss1[0] && ys[1] == mp1[ss1[0]];
      assert xs[2..] == T.RootItems(mp, ss[1..]) && ys[2..] == T.RootItems(mp1, ss1[1..]);
      ItemsDetermine(mp, ss[1..], mp1, ss1[1..]);
      assert ss == [ss[0]] + ss[1..];
    }
  }

  lemma {:induction false} BeforeIsStrict(a: bytes)
    ensures !Before(a, a)
  {
    if a != [] {
      BeforeIsStrict(a[1..]);
    }
  }

  lemma {:induction false} ListingLength(keys: set<bytes>, ss: seq<bytes>)
    requires forall k :: k in ss <==> k in keys
    requires forall i, j :: 0 <= i < j < |ss| ==> Before(ss[i], ss[j])
    ensures |ss| == |keys|
    decreases |ss|
  {
    if ss == [] {
      assert keys == {};
    } else {
      var last, init := ss[|ss| - 1], ss[..|ss| - 1];
      assert ss == init + [last];
      BeforeIsStrict(last);
      assert last !in init;
      ListingLength(keys - {last}, init);
    }
  }

  /** Overlays with equally many keys have the same root only if they are the same. */
  lemma RootBindsOverlay(h: M.Hash, size: nat, mp: T.KV, ss: seq<bytes>, mp1: T.KV, ss1: seq<bytes>)
    requires T.Listing(mp, ss) && T.Listing(mp1, ss1) && |mp.Keys| == |mp1.Keys| && M.DigestSize(h, size)
    requires M.CollisionFree(h, RootInputs(h, mp, ss) + RootInputs(h, mp1, ss1))
    requires T.RootOf(h, mp, ss) == T.RootOf(h, mp1, ss1) && T.RootOf(h, mp, ss).Some?
    ensures mp == mp1
  {
    ListingLength(mp.Keys, ss);
    ListingLength(mp1.Keys, ss1);
    T.ItemsOf(mp, ss);
    T.ItemsOf(mp1, ss1);
    var xs, ys := T.RootItems(mp, ss), T.RootItems(mp1, ss1);
    if xs != [] {
      RootBinds(h, size, xs, ys);
    }
    ItemsDetermine(mp, ss, mp1, ss1);
    assert mp.Keys == mp1.Keys;
  }

  // ---------------------------------------------------------------- what a script reads

  /** What one command of an executor reads of a store, outside of its overlay, is the same in both. */
  predicate SameView(kv: T.KV, kv1: T.KV, owner: bytes, c: T.Call)
    requires T.WellStored(kv) && T.WellStored(kv1)
  {
    match c
    case New(id, _) => T.AKey(id) in kv <==> T.AKey(id) in kv1
    case Mint(id, _) =>
      && (T.OwnedBy(kv, id, owner) <==> T.OwnedBy(kv1, id, owner))
      && T.Balance(kv, id, owner) == T.Balance(kv1, id, owner)
    case Transfer(id, _, to) =>
      && (T.AKey(id) in kv <==> T.AKey(id) in kv1) && (T.Frozen(kv, id, owner) <==> T.Frozen(kv1, id, owner))
      && T.Balance(kv, id, owner) == T.Balance(kv1, id, owner) && T.Balance(kv, id, to) == T.Balance(kv1, id, to)
    case Freeze(id, _) => T.OwnedBy(kv, id, owner) <==> T.OwnedBy(kv1, id, owner)
    case Unfreeze(id, _) => T.OwnedBy(kv, id, owner) <==> T.OwnedBy(kv1, id, owner)
  }

  lemma ViewDecides(kv: T.KV, kv1: T.KV, owner: bytes, mp: T.KV, c: T.Call)
    requires T.WellStored(kv) && T.WellStored(kv1) && T.WellStored(mp) && SameView(kv, kv1, owner, c)
    ensures T.Deal(kv, owner, mp, c) == T.Deal(kv1, owner, mp, c)
  {
  }

  /** Writing the same over both keeps it. */
  lemma ViewKept(kv: T.KV, kv1: T.KV, w: T.KV, owner: bytes, c: T.Call)
    requires T.WellStored(kv) && T.WellStored(kv1) && T.WellStored(w) && SameView(kv, kv1, owner, c)
    ensures T.WellStored(kv + w) && T.WellStored(kv1 + w) && SameView(kv + w, kv1 + w, owner, c)
  {
    BalanceOver(kv, w);
    BalanceOver(kv1, w);
  }

  lemma BalanceOver(kv: T.KV, w: T.KV)
    requires T.WellStored(kv) && T.WellStored(w)
    ensures T.WellStored(kv + w)
    ensures forall id, a :: T.Balance(kv + w, id, a) ==
                            if T.BKey(id, a) in w then T.Balance(w, id, a) else T.Balance(kv, id, a)
  {
  }

  // ---------------------------------------------------------------- what an overlay tells of the store under it

  /** Nothing but copies of one command, which reads as call c. */
  predicate CopiesOf(xs: seq<Option<S.Command>>, c: T.Call) {
    forall i :: 0 <= i < |xs| ==> xs[i].Some? && ToCall(xs[i].value) == Some(c)
  }

  function KeysOf(owner: bytes, c: T.Call): set<bytes> {
    match c
    case New(id, _) => {T.AKey(id), T.BKey(id, owner), T.TKey(id, owner), T.FKey(id, owner)}
    case Mint(id, _) => {T.BKey(id, owner)}
    case Transfer(id, _, to) => {T.BKey(id, owner), T.BKey(id, to)}
    case Freeze(id, a) => {T.FKey(id, a)}
    case Unfreeze(id, a) => {T.FKey(id, a)}
  }

  lemma DealKeys(kv: T.KV, owner: bytes, mp: T.KV, c: T.Call)
    requires T.WellStored(kv) && T.WellStored(mp) && T.Deal(kv, owner, mp, c).Ok?
    ensures T.Deal(kv, owner, mp, c).value.Keys == mp.Keys + KeysOf(owner, c)
  {
  }

  /** Which keys a script writes does not depend on the store. */
  lemma {:induction false} BuiltKeys(kv: T.KV, owner: bytes, mp: T.KV, xs: seq<Option<S.Command>>, c: T.Call)
    requires T.WellStored(kv) && T.WellStored(mp) && |owner| >= 8 && CopiesOf(xs, c)
    requires BuildOverlay(kv, owner, mp, xs).Built?
    ensures BuildOverlay(kv, owner, mp, xs).mp.Keys == mp.Keys + if xs == [] then {} else KeysOf(owner, c)
    decreases |xs|
  {
    if xs != [] {
      T.DealKeepsStored(kv, owner, mp, c);
      DealKeys(kv, owner, mp, c);
      BuiltKeys(kv, owner, T.Deal(kv, owner, mp, c).value, xs[1..], c);
    }
  }

  /** Balances that differ in two overlays differ for good: all a command does is add or subtract. */
  ghost predicate Apart(mp: T.KV, mp1: T.KV, k: bytes) {
    T.InFamily(k, T.B) && k in mp && k in mp1 && |mp[k]| >= 8 && |mp1[k]| >= 8 && T.U64(mp[k]) != T.U64(mp1[k])
  }

  lemma ReadsBack(n: uint64)
    ensures |Put64(n)| == 8 && T.U64(Put64(n)) == n
  {
    Put64RoundTrip(n);
    assert Put64(n)[..8] == Put64(n);
  }

  lemma PutApart(mp: T.KV, mp1: T.KV, k: bytes, v: uint64, v1: uint64, x: bytes)
    requires T.InFamily(x, T.B) && (if x == k then v != v1 else Apart(mp, mp1, x))
    ensures Apart(mp[k := Put64(v)], mp1[k := Put64(v1)], x)
  {
    ReadsBack(v);
    ReadsBack(v1);
  }

  lemma SumsApart(v: uint64, v1: uint64, n: uint64)
    requires v != v1
    ensures Add64(v, n) != Add64(v1, n)
  {
  }

  lemma StillApart(kv: T.KV, kv1: T.KV, owner: bytes, mp: T.KV, mp1: T.KV, c: T.Call, k: bytes)
    requires T.WellStored(kv) && T.WellStored(kv1) && T.WellStored(mp) && T.WellStored(mp1)
    requires Apart(mp, mp1, k) && !c.New?
    requires T.Deal(kv, owner, mp, c).Ok? && T.Deal(kv1, owner, mp1, c).Ok?
    ensures Apart(T.Deal(kv, owner, mp, c).value, T.Deal(kv1, owner, mp1, c).value, k)
  {
    match c
    case Mint(id, n) => MintApart(kv, kv1, owner, mp, mp1, id, n, k);
    case Transfer(id, n, to) =>
      TransferMoves(kv, owner, mp, id, n, to);
      TransferMoves(kv1, owner, mp1, id, n, to);
      var from, j := T.BKey(id, owner), T.BKey(id, to);
      TransferApart(mp, mp1, from, j, T.Read(kv, mp, from), T.Read(kv1, mp1, from), T.Read(kv, mp, j),
                    T.Read(kv1, mp1, j), n, T.Deal(kv, owner, mp, c).value, T.Deal(kv1, owner, mp1, c).value, k);
    case Freeze(id, a) => assert T.FKey(id, a)[0] == T.F;
    case Unfreeze(id, a) => assert T.FKey(id, a)[0] == T.F;
  }

  lemma MintApart(kv: T.KV, kv1: T.KV, owner: bytes, mp: T.KV, mp1: T.KV, id: bytes, n: uint64, x: bytes)
    requires T.WellStored(kv) && T.WellStored(kv1) && T.WellStored(mp) && T.WellStored(mp1) && T.InFamily(x, T.B)
    requires T.Deal(kv, owner, mp, T.Mint(id, n)).Ok? && T.Deal(kv1, owner, mp1, T.Mint(id, n)).Ok?
    requires var k := T.BKey(id, owner);
             if x == k then T.Read(kv, mp, x) != T.Read(kv1, mp1, x) else Apart(mp, mp1, x)
    ensures Apart(T.Deal(kv, owner, mp, T.Mint(id, n)).value, T.Deal(kv1, owner, mp1, T.Mint(id, n)).value, x)
  {
    var k := T.BKey(id, owner);
    var b, b1 := T.Read(kv, mp, k), T.Read(kv1, mp1, k);
    if x == k {
      SumsApart(b, b1, n);
    }
    PutApart(mp, mp1, k, Add64(b, n), Add64(b1, n), x);
  }

  /** r is mp after a transfer of n from key k, which read b, to key j, which read t. */
  ghost predicate Moved(mp: T.KV, k: bytes, j: bytes, b: uint64, t: uint64, n: uint64, r: T.KV) {
    n <= b && r == mp[k := Put64(b - n)][j := Put64(Add64(t, n))]
  }

  lemma TransferMoves(kv: T.KV, owner: bytes, mp: T.KV, id: bytes, n: uint64, to: bytes)
    requires T.WellStored(kv) && T.WellStored(mp) && T.Deal(kv, owner, mp, T.Transfer(id, n, to)).Ok?
    ensures T.InFamily(T.BKey(id, owner), T.B) && T.InFamily(T.BKey(id, to), T.B)
    ensures var k, j := T.BKey(id, owner), T.BKey(id, to);
            Moved(mp, k, j, T.Read(kv, mp, k), T.Read(kv, mp, j), n, T.Deal(kv, owner, mp, T.Transfer(id, n, to)).value)
  {
    T.TransferIs(kv, owner, mp, id, n, to);
  }

  lemma TransferApart(mp: T.KV, mp1: T.KV, k: bytes, j: bytes, b: uint64, b1: uint64, t: uint64, t1: uint64, n: uint64,
                      r: T.KV, r1: T.KV, x: bytes)
    requires T.InFamily(x, T.B) && Moved(mp, k, j, b, t, n, r) && Moved(mp1, k, j, b1, t1, n, r1)
    requires (x == k ==> b != b1) && (x == j ==> t != t1) && (x != k && x != j ==> Apart(mp, mp1, x))
    ensures Apart(r, r1, x)
  {
    if x == j {
      SumsApart(t, t1, n);
    }
    TwoPutsApart(mp, mp1, k, b - n, b1 - n, j, Add64(t, n), Add64(t1, n), x);
  }

  lemma TwoPutsApart(mp: T.KV, mp1: T.KV, k: bytes, v: uint64, v1: uint64, j: bytes, w: uint64, w1: uint64, x: bytes)
    requires T.InFamily(x, T.B)
    requires if x == j then w != w1 else if x == k then v != v1 else Apart(mp, mp1, x)
    ensures Apart(mp[k := Put64(v)][j := Put64(w)], mp1[k := Put64(v1)][j := Put64(w1)], x)
  {
    if x != j {
      PutApart(mp, mp1, k, v, v1, x);
    }
    PutApart(mp[k := Put64(v)], mp1[k := Put64(v1)], j, w, w1, x);
  }

  lemma {:induction false} BuiltApart(kv: T.KV, kv1: T.KV, owner: bytes, mp: T.KV, mp1: T.KV,
                                      xs: seq<Option<S.Command>>, c: T.Call, k: bytes)
    requires T.WellStored(kv) && T.WellStored(kv1) && T.WellStored(mp) && T.WellStored(mp1) && |owner| >= 8
    requires CopiesOf(xs, c) && Apart(mp, mp1, k) && !c.New?
    requires BuildOverlay(kv, owner, mp, xs).Built? && BuildOverlay(kv1, owner, mp1, xs).Built?
    ensures BuildOverlay(kv, owner, mp, xs) != BuildOverlay(kv1, owner, mp1, xs)
    decreases |xs|
  {
    if xs != [] {
      T.DealKeepsStored(kv, owner, mp, c);
      T.DealKeepsStored(kv1, owner, mp1, c);
      StillApart(kv, kv1, owner, mp, mp1, c, k);
      BuiltApart(kv, kv1, owner, T.Deal(kv, owner, mp, c).value, T.Deal(kv1, owner, mp1, c).value, xs[1..], c, k);
    }
  }

  /** After one command over an empty overlay: the balances it has read can be told from what it wrote. */
  lemma FirstTells(kv: T.KV, kv1: T.KV, owner: bytes, c: T.Call)
    requires T.WellStored(kv) && T.WellStored(kv1)
    requires T.Deal(kv, owner, map[], c).Ok? && T.Deal(kv1, owner, map[], c).Ok?
    ensures SameView(kv, kv1, owner, c) ||
            (!c.New? && exists k :: Apart(T.Deal(kv, owner, map[], c).value, T.Deal(kv1, owner, map[], c).value, k))
  {
    match c
    case Mint(id, n) =>
      T.PrefixedKeys(id, owner);
      if T.Balance(kv, id, owner) != T.Balance(kv1, id, owner) {
        MintApart(kv, kv1, owner, map[], map[], id, n, T.BKey(id, owner));
      }
    case Transfer(id, n, to) =>
      TransferMoves(kv, owner, map[], id, n, to);
      TransferMoves(kv1, owner, map[], id, n, to);
      var k, j := T.BKey(id, owner), T.BKey(id, to);
      var x := if T.Balance(kv, id, owner) != T.Balance(kv1, id, owner) then k else j;
      if T.Read(kv, map[], x) != T.Read(kv1, map[], x) {
        TransferApart(map[], map[], k, j, T.Read(kv, map[], k), T.Read(kv1, map[], k), T.Read(kv, map[], j),
                      T.Read(kv1, map[], j), n, T.Deal(kv, owner, map[], c).value,
                      T.Deal(kv1, owner, map[], c).value, x);
      }
    case _ =>
  }

  /** So a script that writes the same on two stores has read the same of them. */
  lemma OverlayTells(kv: T.KV, kv1: T.KV, owner: bytes, xs: seq<Option<S.Command>>, c: T.Call)
    requires T.WellStored(kv) && T.WellStored(kv1) && |owner| >= 8 && CopiesOf(xs, c) && xs != []
    requires BuildOverlay(kv, owner, map[], xs).Built?
    requires BuildOverlay(kv, owner, map[], xs) == BuildOverlay(kv1, owner, map[], xs)
    ensures SameView(kv, kv1, owner, c)
  {
    T.DealKeepsStored(kv, owner, map[], c);
    T.DealKeepsStored(kv1, owner, map[], c);
    var m, m1 := T.Deal(kv, owner, map[], c).value, T.Deal(kv1, owner, map[], c).value;
    FirstTells(kv, kv1, owner, c);
    if !SameView(kv, kv1, owner, c) {
      var k :| Apart(m, m1, k);
      BuiltApart(kv, kv1, owner, m, m1, xs[1..], c, k);
    }
  }

  lemma {:induction false} ViewBuilds(kv: T.KV, kv1: T.KV, owner: bytes, mp: T.KV, xs: seq<Option<S.Command>>,
                                      c: T.Call)
    requires T.WellStored(kv) && T.WellStored(kv1) && T.WellStored(mp) && |owner| >= 8
    requires CopiesOf(xs, c) && SameView(kv, kv1, owner, c)
    ensures BuildOverlay(kv, owner, mp, xs) == BuildOverlay(kv1, owner, mp, xs)
    decreases |xs|
  {
    if xs != [] {
      ViewDecides(kv, kv1, owner, mp, c);
      T.DealKeepsStored(kv, owner, mp, c);
      if T.Deal(kv, owner, mp, c).Ok? {
        ViewBuilds(kv, kv1, owner, T.Deal(kv, owner, mp, c).value, xs[1..], c);
      }
    }
  }

  // ---------------------------------------------------------------- the test

  /** The call of a script, if it has one; the rest of it are copies. */
  function TheCall(script: bytes): Option<T.Call> {
    var xs := S.Scripts(script);
    if xs == [] || xs[0] == None then None else ToCall(xs[0].value)
  }

  lemma ScriptIsCopies(script: bytes)
    ensures TheCall(script).Some? ==> CopiesOf(S.Scripts(script), TheCall(script).value)
  {
    S.ScriptsIff(script);
  }

  /** Checkresults' test of one transaction. */
  ghost predicate RootHolds(h: M.Hash, kv: T.KV, t: Transaction)
    requires T.WellStored(kv) && ValidTx(t)
  {
    t.script != [] ==>
      var r := ExecNew(kv, t.script, t.from);
      r.Built? && exists ss :: T.Listing(r.mp, ss) && T.RootOf(h, r.mp, ss) == Some(t.root)
  }

  /** And of all of them, each on the same store. */
  ghost predicate RootsHold(h: M.Hash, kv: T.KV, txs: seq<Transaction>)
    requires T.WellStored(kv) && ValidTxs(txs)
  {
    forall i :: 0 <= i < |txs| ==> RootHolds(h, kv, txs[i])
  }

  /** The hash does not collide on anything the transaction's script could write. */
  ghost predicate NoCollisions(h: M.Hash, t: Transaction)
    requires ValidTx(t)
  {
    forall kv, kv1, ss, ss1 :: T.WellStored(kv) && T.WellStored(kv1) ==>
      var r, r1 := ExecNew(kv, t.script, t.from), ExecNew(kv1, t.script, t.from);
      r.Built? && r1.Built? && T.Listing(r.mp, ss) && T.Listing(r1.mp, ss1) ==>
        M.CollisionFree(h, RootInputs(h, r.mp, ss) + RootInputs(h, r1.mp, ss1))
  }

  /** A transaction's script reads the same of two stores. */
  predicate SameReads(kv: T.KV, kv1: T.KV, t: Transaction)
    requires T.WellStored(kv) && T.WellStored(kv1)
  {
    t.script == [] || TheCall(t.script) == None || SameView(kv, kv1, t.from, TheCall(t.script).value)
  }

  lemma ReadsBuild(kv: T.KV, kv1: T.KV, t: Transaction)
    requires T.WellStored(kv) && T.WellStored(kv1) && ValidTx(t) && SameReads(kv, kv1, t) && t.script != []
    ensures ExecNew(kv, t.script, t.from) == ExecNew(kv1, t.script, t.from)
  {
    ScriptIsCopies(t.script);
    if TheCall(t.script).Some? {
      ViewBuilds(kv, kv1, t.from, map[], S.Scripts(t.script), TheCall(t.script).value);
    }
  }

  lemma BuiltTells(kv: T.KV, kv1: T.KV, t: Transaction)
    requires T.WellStored(kv) && T.WellStored(kv1) && ValidTx(t) && t.script != []
    requires ExecNew(kv, t.script, t.from).Built?
    requires ExecNew(kv, t.script, t.from) == ExecNew(kv1, t.script, t.from)
    ensures SameReads(kv, kv1, t)
  {
    ScriptIsCopies(t.script);
    if TheCall(t.script).Some? {
      OverlayTells(kv, kv1, t.from, S.Scripts(t.script), TheCall(t.script).value);
    }
  }

  lemma SameKeyCount(kv: T.KV, kv1: T.KV, t: Transaction)
    requires T.WellStored(kv) && T.WellStored(kv1) && ValidTx(t)
    requires ExecNew(kv, t.script, t.from).Built? && ExecNew(kv1, t.script, t.from).Built?
    ensures ExecNew(kv, t.script, t.from).mp.Keys == ExecNew(kv1, t.script, t.from).mp.Keys
  {
    ScriptIsCopies(t.script);
    if TheCall(t.script).Some? {
      BuiltKeys(kv, t.from, map[], S.Scripts(t.script), TheCall(t.script).value);
      BuiltKeys(kv1, t.from, map[], S.Scripts(t.script), TheCall(t.script).value);
    }
  }

  /** A transaction that passes on one store passes on another if and only if its script reads the same
      of both. */
  lemma RootHoldsIff(h: M.Hash, size: nat, kv: T.KV, kv1: T.KV, t: Transaction)
    requires T.WellStored(kv) && T.WellStored(kv1) && ValidTx(t)
    requires M.DigestSize(h, size) && NoCollisions(h, t) && RootHolds(h, kv, t)
    ensures RootHolds(h, kv1, t) <==> SameReads(kv, kv1, t)
  {
    if t.script != [] {
      if SameReads(kv, kv1, t) {
        ReadsBuild(kv, kv1, t);
      }
      if RootHolds(h, kv1, t) {
        var r, r1 := ExecNew(kv, t.script, t.from), ExecNew(kv1, t.script, t.from);
        var ss :| T.Listing(r.mp, ss) && T.RootOf(h, r.mp, ss) == Some(t.root);
        var ss1 :| T.Listing(r1.mp, ss1) && T.RootOf(h, r1.mp, ss1) == Some(t.root);
        SameKeyCount(kv, kv1, t);
        RootBindsOverlay(h, size, r.mp, ss, r1.mp, ss1);
        BuiltTells(kv, kv1, t);
      }
    }
  }

  // ---------------------------------------------------------------- running scripts over two stores

  /** What running the scripts writes. */
  ghost function Writes(kv: T.KV, txs: seq<Transaction>): (r: T.KV)
    requires T.WellStored(kv) && ValidTxs(txs)
    ensures T.WellStored(r)
  {
    if txs == [] then map[]
    else
      var init, t := txs[..|txs| - 1], txs[|txs| - 1];
      match RunScripts(kv, init)
      case None => map[]
      case Some(kv1) => Writes(kv, init) + Effect(kv1, t)
  }

  function Effect(kv: T.KV, t: Transaction): (r: T.KV)
    requires T.WellStored(kv) && ValidTx(t)
    ensures T.WellStored(r)
  {
    BuiltIsStored(kv, t.from, map[], S.Scripts(t.script));
    if t.script == [] || !ExecNew(kv, t.script, t.from).Built? || [] in ExecNew(kv, t.script, t.from).mp then map[]
    else ExecNew(kv, t.script, t.from).mp
  }

  lemma RunIsEffect(kv: T.KV, t: Transaction)
    requires T.WellStored(kv) && ValidTx(t) && RunScript(kv, t).Some?
    ensures RunScript(kv, t) == Some(kv + Effect(kv, t))
  {
    assert kv + map[] == kv;
    if t.script != [] {
      BuiltIsStored(kv, t.from, map[], S.Scripts(t.script));
      FlushIsEffect(kv, t, ExecNew(kv, t.script, t.from));
    }
  }

  lemma FlushIsEffect(kv: T.KV, t: Transaction, r: ScriptRun)
    requires T.WellStored(kv) && ValidTx(t) && t.script != [] && RunScript(kv, t).Some?
    requires r == ExecNew(kv, t.script, t.from)
    ensures r.Built? && RunScript(kv, t).value == T.FlushInto(kv, r.mp)
    ensures Effect(kv, t) == if [] in r.mp then map[] else r.mp
  {
  }

  lemma {:induction false} RunsAreWrites(kv: T.KV, txs: seq<Transaction>)
    requires T.WellStored(kv) && ValidTxs(txs) && RunScripts(kv, txs).Some?
    ensures RunScripts(kv, txs) == Some(kv + Writes(kv, txs))
  {
    if txs != [] {
      var init, t := txs[..|txs| - 1], txs[|txs| - 1];
      RunsAreWrites(kv, init);
      var kv1 := RunScripts(kv, init).value;
      RunIsEffect(kv1, t);
      OneAfterOther(kv, Writes(kv, init), Effect(kv1, t));
    } else {
      assert kv + map[] == kv;
    }
  }

  lemma OneAfterOther(kv: T.KV, w: T.KV, w1: T.KV)
    ensures (kv + w) + w1 == kv + (w + w1)
  {
  }

  ghost predicate AllSameReads(kv: T.KV, kv1: T.KV, txs: seq<Transaction>)
    requires T.WellStored(kv) && T.WellStored(kv1)
  {
    forall i :: 0 <= i < |txs| ==> SameReads(kv, kv1, txs[i])
  }

  lemma SameEffect(kv: T.KV, kv1: T.KV, t: Transaction)
    requires T.WellStored(kv) && T.WellStored(kv1) && ValidTx(t) && SameReads(kv, kv1, t)
    ensures (RunScript(kv, t).Some? <==> RunScript(kv1, t).Some?) && Effect(kv, t) == Effect(kv1, t)
  {
    if t.script != [] {
      ReadsBuild(kv, kv1, t);
    }
  }

  lemma ReadsKept(kv: T.KV, kv1: T.KV, w: T.KV, txs: seq<Transaction>)
    requires T.WellStored(kv) && T.WellStored(kv1) && T.WellStored(w) && AllSameReads(kv, kv1, txs)
    ensures T.WellStored(kv + w) && T.WellStored(kv1 + w) && AllSameReads(kv + w, kv1 + w, txs)
  {
    BalanceOver(kv, w);
    BalanceOver(kv1, w);
    forall i | 0 <= i < |txs| ensures SameReads(kv + w, kv1 + w, txs[i]) {
      if txs[i].script != [] && TheCall(txs[i].script).Some? {
        ViewKept(kv, kv1, w, txs[i].from, TheCall(txs[i].script).value);
      }
    }
  }

  lemma WritesNext(kv: T.KV, txs: seq<Transaction>, i: nat)
    requires T.WellStored(kv) && ValidTxs(txs) && i < |txs| && RunScripts(kv, txs[..i]).Some?
    ensures Writes(kv, txs[..i + 1]) == Writes(kv, txs[..i]) + Effect(RunScripts(kv, txs[..i]).value, txs[i])
  {
    assert txs[..i + 1][..i] == txs[..i];
  }

  /** The first n scripts come out alike over two stores. */
  ghost predicate GoAlike(kv: T.KV, kv1: T.KV, all: seq<Transaction>, n: nat)
    requires T.WellStored(kv) && T.WellStored(kv1) && ValidTxs(all) && n <= |all|
  {
    var r, r1 := RunScripts(kv, all[..n]), RunScripts(kv1, all[..n]);
    && (r.Some? <==> r1.Some?)
    && (r.Some? ==> Writes(kv, all[..n]) == Writes(kv1, all[..n]) && AllSameReads(r.value, r1.value, all))
  }

  /** Scripts that all read the same of two stores write the same, one after the other. */
  lemma {:induction false} RunsAlike(kv: T.KV, kv1: T.KV, all: seq<Transaction>, n: nat)
    requires T.WellStored(kv) && T.WellStored(kv1) && ValidTxs(all) && n <= |all| && AllSameReads(kv, kv1, all)
    ensures GoAlike(kv, kv1, all, n)
  {
    if n > 0 {
      RunsAlike(kv, kv1, all, n - 1);
      NextAlike(kv, kv1, all, n - 1);
    }
  }

  lemma NextAlike(kv: T.KV, kv1: T.KV, all: seq<Transaction>, i: nat)
    requires T.WellStored(kv) && T.WellStored(kv1) && ValidTxs(all) && i < |all| && GoAlike(kv, kv1, all, i)
    ensures GoAlike(kv, kv1, all, i + 1)
  {
    RunScriptsNext(kv, all, i);
    RunScriptsNext(kv1, all, i);
    var r, r1 := RunScripts(kv, all[..i]), RunScripts(kv1, all[..i]);
    if r.Some? {
      RunAlike(r.value, r1.value, all, i);
      WritesNext(kv, all, i);
      WritesNext(kv1, all, i);
    }
  }

  lemma RunAlike(kv: T.KV, kv1: T.KV, all: seq<Transaction>, i: nat)
    requires T.WellStored(kv) && T.WellStored(kv1) && ValidTxs(all) && i < |all| && AllSameReads(kv, kv1, all)
    ensures var r, r1 := RunScript(kv, all[i]), RunScript(kv1, all[i]);
            && (r.Some? <==> r1.Some?) && Effect(kv, all[i]) == Effect(kv1, all[i])
            && (r.Some? ==> AllSameReads(r.value, r1.value, all))
  {
    SameEffect(kv, kv1, all[i]);
    if RunScript(kv, all[i]).Some? {
      RunIsEffect(kv, all[i]);
      RunIsEffect(kv1, all[i]);
      ReadsKept(kv, kv1, Effect(kv, all[i]), all);
    }
  }

  // ---------------------------------------------------------------- a torn block that passes

  /** What a crash leaves is the store after some of the scripts. */
  lemma FlushedIsPrefix(kv: T.KV, txs: seq<Transaction>, j: nat, i: nat) returns (n: nat)
    requires T.WellStored(kv) && ValidTxs(txs) && i <= |txs| && i <= j && RunScripts(kv, txs[..i]).Some?
    ensures n <= |txs| && RunScripts(kv, txs[..n]) == Some(Flushed(kv, txs, j))
    decreases |txs| - i
  {
    FlushedSplits(kv, txs, i, j);
    var kv1 := RunScripts(kv, txs[..i]).value;
    if i == j || i == |txs| {
      return i;
    }
    RunScriptsNext(kv, txs, i);
    FlushedNext(kv1, txs, i, j);
    if RunScript(kv1, txs[i]) == None {
      return i;
    }
    n := FlushedIsPrefix(kv, txs, j, i + 1);
  }

  lemma {:induction false} WritesGrow(kv: T.KV, txs: seq<Transaction>, n: nat)
    requires T.WellStored(kv) && ValidTxs(txs) && n <= |txs| && RunScripts(kv, txs).Some?
    ensures Writes(kv, txs[..n]).Keys <= Writes(kv, txs).Keys
    decreases |txs|
  {
    if n < |txs| {
      assert txs[..|txs| - 1][..n] == txs[..n];
      WritesGrow(kv, txs[..|txs| - 1], n);
    } else {
      assert txs[..n] == txs;
    }
  }

  /** A block torn by a crash that passes the test again comes out as it would have without the crash:
      same store, or the same panic. */
  lemma TornPasses(h: M.Hash, size: nat, kv: T.KV, txs: seq<Transaction>, j: nat)
    requires T.WellStored(kv) && ValidTxs(txs) && M.DigestSize(h, size)
    requires forall i :: 0 <= i < |txs| ==> NoCollisions(h, txs[i])
    requires RootsHold(h, kv, txs) && RootsHold(h, Flushed(kv, txs, j), txs)
    ensures RunScripts(Flushed(kv, txs, j), txs) == RunScripts(kv, txs)
  {
    var torn := Flushed(kv, txs, j);
    forall i | 0 <= i < |txs| ensures SameReads(kv, torn, txs[i]) {
      RootHoldsIff(h, size, kv, torn, txs[i]);
    }
    TornReruns(kv, txs, j);
  }

  lemma TornReruns(kv: T.KV, txs: seq<Transaction>, j: nat)
    requires T.WellStored(kv) && ValidTxs(txs) && AllSameReads(kv, Flushed(kv, txs, j), txs)
    ensures RunScripts(Flushed(kv, txs, j), txs) == RunScripts(kv, txs)
  {
    var torn := Flushed(kv, txs, j);
    RunsAlike(kv, torn, txs, |txs|);
    assert txs[..|txs|] == txs;
    if RunScripts(kv, txs).Some? {
      var w := TornBy(kv, txs, j);
      RunsAreWrites(kv, txs);
      RunsAreWrites(torn, txs);
      WrittenOver(kv, w, Writes(kv, txs));
    }
  }

  lemma TornBy(kv: T.KV, txs: seq<Transaction>, j: nat) returns (w: T.KV)
    requires T.WellStored(kv) && ValidTxs(txs) && RunScripts(kv, txs).Some?
    ensures Flushed(kv, txs, j) == kv + w && w.Keys <= Writes(kv, txs).Keys
  {
    assert txs[..0] == [];
    var n := FlushedIsPrefix(kv, txs, j, 0);
    RunsAreWrites(kv, txs[..n]);
    WritesGrow(kv, txs, n);
    w := Writes(kv, txs[..n]);
  }

  lemma WrittenOver(kv: T.KV, w: T.KV, w1: T.KV)
    requires w.Keys <= w1.Keys
    ensures (kv + w) + w1 == kv + w1
  {
  }
}
