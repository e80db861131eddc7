/** What holds of the contract store over whole runs of executed scripts. */
module TokenRuns {
  import opened Bytes
  import opened Options
  import opened MapSum
  import opened TokenExec

  /** A transaction's script: the sender executes a list of commands. */
  datatype Tx = Tx(executor: bytes, cs: seq<Call>)

  predicate PlainAddresses(c: Call) {
    match c
    case Transfer(_, _, to) => |to| == ADDRESS_LENGTH
    case Freeze(_, a) => |a| == ADDRESS_LENGTH
    case Unfreeze(_, a) => |a| == ADDRESS_LENGTH
    case _ => true
  }

  /** Addresses have full length and ids are not confusable with prefixed keys. */
  predicate Regular(tx: Tx) {
    |tx.executor| == ADDRESS_LENGTH
    && forall i :: 0 <= i < |tx.cs| ==> PlainId(tx.cs[i].id) && PlainAddresses(tx.cs[i])
  }

  // ---------------------------------------------------------------- supply

  predicate IsBalanceKey(k: bytes, id: bytes) {
    InFamily(k, B) && |k| == 2 + |id| + ADDRESS_LENGTH && k[2..2 + |id|] == id
  }

  lemma BalanceKeys(id: bytes, addr: bytes, other: bytes)
    requires |addr| == ADDRESS_LENGTH
    ensures IsBalanceKey(BKey(id, addr), other) <==> other == id
  {
    var k := BKey(id, addr);
    assert k[2..2 + |id|] == id;
  }

  /** The balances of one token, by balance key. */
  ghost function Balances(kv: KV, id: bytes): map<bytes, nat>
    requires WellStored(kv)
  {
    map k | k in kv && IsBalanceKey(k, id) :: U64(kv[k])
  }

  ghost function Supply(kv: KV, id: bytes): nat
    requires WellStored(kv)
  {
    Sum(Balances(kv, id))
  }

  lemma BalanceIsEntry(kv: KV, id: bytes, addr: bytes)
    requires WellStored(kv) && |addr| == ADDRESS_LENGTH
    ensures Balance(kv, id, addr) == At(Balances(kv, id), BKey(id, addr))
    ensures Balance(kv, id, addr) <= Supply(kv, id)
  {
    BalanceKeys(id, addr, id);
    SumUpdate(Balances(kv, id), BKey(id, addr), 0);
  }

  lemma U64Put64(n: uint64)
    ensures U64(Put64(n)) == n
  {
    Put64RoundTrip(n);
    assert Put64(n)[..8] == Put64(n);
  }

  lemma WriteBalance(kv: KV, id: bytes, addr: bytes, n: uint64, other: bytes)
    requires WellStored(kv) && |addr| == ADDRESS_LENGTH
    ensures WellStored(kv[BKey(id, addr) := Put64(n)])
    ensures Balances(kv[BKey(id, addr) := Put64(n)], other)
         == if other == id then Balances(kv, id)[BKey(id, addr) := n] else Balances(kv, other)
  {
    BalanceKeys(id, addr, other);
    BalanceKeys(id, addr, id);
    U64Put64(n);
  }

  lemma WriteOther(kv: KV, k: bytes, v: bytes, id: bytes)
    requires WellStored(kv) && !InFamily(k, B)
    ensures WellStored(kv[k := v]) && Balances(kv[k := v], id) == Balances(kv, id)
  {
  }

  // ---------------------------------------------------------------- the invariant

  /** What is stored about a token exists only once the token does. */
  ghost predicate Wired(kv: KV) {
    && WellStored(kv)
    && (forall id :: PlainId(id) && id !in kv ==> Balances(kv, id) == map[])
    && (forall id, a :: PlainId(id) && |a| == ADDRESS_LENGTH && FKey(id, a) in kv ==> id in kv)
  }

  /** The store after one command run directly, unchanged if it fails. */
  function After(kv: KV, executor: bytes, c: Call): KV
    requires WellStored(kv)
  {
    match Deal(kv, executor, map[], c)
    case Err => kv
    case Ok(mp) => kv + mp
  }

  function Minted(c: Call, id: bytes): nat {
    if c.Mint? && c.id == id then c.amount else 0
  }

  lemma AfterIs(kv: KV, executor: bytes, c: Call)
    requires WellStored(kv) && Deal(kv, executor, map[], c).Ok?
    ensures After(kv, executor, c) == match c
      case New(id, total) => kv[id := executor][BKey(id, executor) := Put64(0)]
                               [TKey(id, executor) := Put64(total)][FKey(id, executor) := [0]]
      case Mint(id, amount) => kv[BKey(id, executor) := Put64(Add64(Balance(kv, id, executor), amount))]
      case Transfer(id, amount, to) =>
        kv[BKey(id, executor) := Put64(Balance(kv, id, executor) - amount)]
          [BKey(id, to) := Put64(Add64(Balance(kv, id, to), amount))]
      case Freeze(id, addr) => kv[FKey(id, addr) := [1]]
      case Unfreeze(id, addr) => kv[FKey(id, addr) := [0]]
  {
  }

  lemma NewSupply(kv: KV, executor: bytes, id: bytes, total: uint64, other: bytes)
    requires Wired(kv) && |executor| == ADDRESS_LENGTH && PlainId(id) && PlainId(other)
    requires id !in kv
    ensures WellStored(After(kv, executor, New(id, total)))
    ensures Supply(After(kv, executor, New(id, total)), other) == Supply(kv, other)
    ensures other != id ==> Balances(After(kv, executor, New(id, total)), other) == Balances(kv, other)
  {
    AfterIs(kv, executor, New(id, total));
    PrefixedKeys(id, executor);
    var k1 := kv[id := executor];
    WriteOther(kv, id, executor, other);
    WriteBalance(k1, id, executor, 0, other);
    var k2 := k1[BKey(id, executor) := Put64(0)];
    WriteOther(k2, TKey(id, executor), Put64(total), other);
    var k3 := k2[TKey(id, executor) := Put64(total)];
    WriteOther(k3, FKey(id, executor), [0], other);
    SumUpdate(Balances(k1, other), BKey(id, executor), 0);
    if other == id {
      WriteOther(kv, id, executor, id);
    }
  }

  lemma MintSupply(kv: KV, executor: bytes, cid: bytes, amount: uint64, id: bytes)
    requires WellStored(kv) && |executor| == ADDRESS_LENGTH
    requires Supply(kv, cid) + amount < TWO_64
    ensures var kv1 := kv[BKey(cid, executor) := Put64(Add64(Balance(kv, cid, executor), amount))];
            WellStored(kv1) && Supply(kv1, id) == Supply(kv, id) + if cid == id then amount else 0
  {
    BalanceIsEntry(kv, cid, executor);
    var n := Balance(kv, cid, executor) + amount;
    assert n == Add64(Balance(kv, cid, executor), amount);
    WriteBalance(kv, cid, executor, n, id);
    SumUpdate(Balances(kv, cid), BKey(cid, executor), n);
  }

  /** The store after a transfer between two addresses. */
  function Moved(kv: KV, from: bytes, id: bytes, amount: uint64, to: bytes): KV
    requires WellStored(kv) && amount <= Balance(kv, id, from)
  {
    kv[BKey(id, from) := Put64(Balance(kv, id, from) - amount)]
      [BKey(id, to) := Put64(Add64(Balance(kv, id, to), amount))]
  }

  /** One balance written changes the supply of its token by as much. */
  lemma SupplyAfterWrite(kv: KV, cid: bytes, addr: bytes, n: uint64, id: bytes)
    requires WellStored(kv) && |addr| == ADDRESS_LENGTH
    ensures var kv1 := kv[BKey(cid, addr) := Put64(n)];
            && WellStored(kv1)
            && Supply(kv1, id) == Supply(kv, id) + if cid == id then n - Balance(kv, cid, addr) else 0
  {
    BalanceIsEntry(kv, cid, addr);
    WriteBalance(kv, cid, addr, n, id);
    SumUpdate(Balances(kv, cid), BKey(cid, addr), n);
  }

  lemma SupplyAfterTwo(kv: KV, cid: bytes, from: bytes, f: uint64, to: bytes, t: uint64, id: bytes)
    requires WellStored(kv) && |from| == |to| == ADDRESS_LENGTH && from != to
    ensures var kv2 := kv[BKey(cid, from) := Put64(f)][BKey(cid, to) := Put64(t)];
            && WellStored(kv2)
            && Supply(kv2, id) ==
               Supply(kv, id) + if cid == id then f - Balance(kv, cid, from) + t - Balance(kv, cid, to) else 0
  {
    var kv1 := kv[BKey(cid, from) := Put64(f)];
    SupplyAfterWrite(kv, cid, from, f, id);
    BalanceAfterWrite(kv, cid, from, f, cid, to);
    SupplyAfterWrite(kv1, cid, to, t, id);
  }

  lemma MovedSupply(kv: KV, from: bytes, cid: bytes, amount: uint64, to: bytes, id: bytes)
    requires WellStored(kv) && |from| == |to| == ADDRESS_LENGTH && from != to
    requires amount <= Balance(kv, cid, from) && Supply(kv, cid) < TWO_64
    ensures WellStored(Moved(kv, from, cid, amount, to))
    ensures Supply(Moved(kv, from, cid, amount, to), id) == Supply(kv, id)
  {
    NoWrapInTransfer(kv, cid, from, amount, to);
    var f, t := Balance(kv, cid, from) - amount, Add64(Balance(kv, cid, to), amount);
    MovedIs(kv, from, cid, amount, to, f, t);
    Balanced(kv, cid, from, f, to, t, amount, id);
  }

  lemma MovedIs(kv: KV, from: bytes, id: bytes, amount: uint64, to: bytes, f: uint64, t: uint64)
    requires WellStored(kv) && f + amount == Balance(kv, id, from) && t == Add64(Balance(kv, id, to), amount)
    ensures Moved(kv, from, id, amount, to) == kv[BKey(id, from) := Put64(f)][BKey(id, to) := Put64(t)]
  {
  }

  /** What one balance loses the other gains. */
  lemma Balanced(kv: KV, cid: bytes, from: bytes, f: uint64, to: bytes, t: uint64, amount: uint64, id: bytes)
    requires WellStored(kv) && |from| == |to| == ADDRESS_LENGTH && from != to
    requires f + amount == Balance(kv, cid, from) && t == Balance(kv, cid, to) + amount
    ensures var kv2 := kv[BKey(cid, from) := Put64(f)][BKey(cid, to) := Put64(t)];
            WellStored(kv2) && Supply(kv2, id) == Supply(kv, id)
  {
    SupplyAfterTwo(kv, cid, from, f, to, t, id);
  }

  lemma NoWrapInTransfer(kv: KV, id: bytes, from: bytes, amount: uint64, to: bytes)
    requires WellStored(kv) && |from| == |to| == ADDRESS_LENGTH && from != to
    requires amount <= Balance(kv, id, from) && Supply(kv, id) < TWO_64
    ensures Add64(Balance(kv, id, to), amount) == Balance(kv, id, to) + amount
  {
    TwoBalancesFit(kv, id, from, to);
  }

  lemma MovedToSelf(kv: KV, from: bytes, id: bytes, amount: uint64)
    requires WellStored(kv) && |from| == ADDRESS_LENGTH
    requires amount <= Balance(kv, id, from) && Supply(kv, id) + amount < TWO_64
    ensures WellStored(Moved(kv, from, id, amount, from))
    ensures Supply(Moved(kv, from, id, amount, from), id) == Supply(kv, id) + amount
  {
    MintSupply(kv, from, id, amount, id);
    var k := BKey(id, from);
    var n := Put64(Add64(Balance(kv, id, from), amount));
    assert Moved(kv, from, id, amount, from) == kv[k := n];
  }

  /** Which commands succeed, and what they do then. */
  lemma AfterTransfer(kv: KV, executor: bytes, id: bytes, amount: uint64, to: bytes)
    requires WellStored(kv)
    ensures Deal(kv, executor, map[], Transfer(id, amount, to)).Ok? <==>
              id in kv && !Frozen(kv, id, executor) && amount <= Balance(kv, id, executor)
    ensures Deal(kv, executor, map[], Transfer(id, amount, to)).Ok? ==>
              After(kv, executor, Transfer(id, amount, to)) == Moved(kv, executor, id, amount, to)
  {
  }

  /** One successful command changes a token's supply by what it mints and by nothing else:
      transfers to somebody else conserve it. */
  lemma SupplyStep(kv: KV, executor: bytes, c: Call, id: bytes)
    requires Wired(kv) && |executor| == ADDRESS_LENGTH
    requires PlainId(c.id) && PlainAddresses(c) && PlainId(id)
    requires Deal(kv, executor, map[], c).Ok?
    requires c.Transfer? ==> c.to != executor
    requires Supply(kv, c.id) + Minted(c, c.id) < TWO_64
    ensures WellStored(After(kv, executor, c))
    ensures Supply(After(kv, executor, c), id) == Supply(kv, id) + Minted(c, id)
  {
    match c {
      case New(cid, total) =>
        NewSupply(kv, executor, cid, total, id);
      case Mint(cid, amount) =>
        AfterIs(kv, executor, c);
        MintSupply(kv, executor, cid, amount, id);
      case Transfer(cid, amount, to) =>
        AfterTransfer(kv, executor, cid, amount, to);
        MovedSupply(kv, executor, cid, amount, to, id);
      case Freeze(cid, a) =>
        AfterIs(kv, executor, c);
        PrefixedKeys(cid, a);
        WriteOther(kv, FKey(cid, a), [1], id);
      case Unfreeze(cid, a) =>
        AfterIs(kv, executor, c);
        PrefixedKeys(cid, a);
        WriteOther(kv, FKey(cid, a), [0], id);
    }
  }

  /** A transfer to oneself is the exception: the second write wins and the amount is created,
      so supply is kept exactly when the receiver is somebody else or the amount is zero. */
  lemma TransferConservesIff(kv: KV, executor: bytes, id: bytes, amount: uint64, to: bytes)
    requires WellStored(kv) && |executor| == ADDRESS_LENGTH && |to| == ADDRESS_LENGTH
    requires Deal(kv, executor, map[], Transfer(id, amount, to)).Ok?
    requires Supply(kv, id) + amount < TWO_64
    ensures WellStored(After(kv, executor, Transfer(id, amount, to)))
    ensures Supply(After(kv, executor, Transfer(id, amount, to)), id) == Supply(kv, id)
       <==> to != executor || amount == 0
  {
    AfterTransfer(kv, executor, id, amount, to);
    if to != executor {
      MovedSupply(kv, executor, id, amount, to, id);
    } else {
      MovedToSelf(kv, executor, id, amount);
    }
  }

  // ---------------------------------------------------------------- owners and freezes

  /** The owner of a token never changes, tokens do not vanish, and only `new` makes them. */
  lemma OwnerStep(kv: KV, executor: bytes, c: Call, id: bytes)
    requires WellStored(kv) && PlainId(c.id) && PlainId(id)
    ensures id in kv ==> id in After(kv, executor, c) && After(kv, executor, c)[id] == kv[id]
    ensures id !in kv ==> (id in After(kv, executor, c) <==> c.New? && c.id == id)
  {
    if Deal(kv, executor, map[], c).Ok? {
      AfterIs(kv, executor, c);
      PrefixedKeys(c.id, executor);
      if c.Transfer? {
        PrefixedKeys(c.id, c.to);
      } else if c.Freeze? || c.Unfreeze? {
        PrefixedKeys(c.id, c.addr);
      }
    }
  }

  lemma WiredStep(kv: KV, executor: bytes, c: Call)
    requires Wired(kv) && |executor| == ADDRESS_LENGTH
    requires PlainId(c.id) && PlainAddresses(c)
    ensures Wired(After(kv, executor, c))
  {
    var kv1 := After(kv, executor, c);
    DealKeepsStored(kv, executor, map[], c);
    if Deal(kv, executor, map[], c).Ok? {
      AfterIs(kv, executor, c);
      forall id | PlainId(id) && id !in kv1 ensures Balances(kv1, id) == map[] {
        OwnerStep(kv, executor, c, id);
        BalancesElsewhere(kv, executor, c, id);
      }
      forall id, a | PlainId(id) && |a| == ADDRESS_LENGTH && FKey(id, a) in kv1 ensures id in kv1 {
        OwnerStep(kv, executor, c, id);
        FreezeKeyStep(kv, executor, c, id, a);
      }
    }
  }

  lemma BalancesElsewhere(kv: KV, executor: bytes, c: Call, id: bytes)
    requires Wired(kv) && |executor| == ADDRESS_LENGTH
    requires PlainId(c.id) && PlainAddresses(c) && PlainId(id)
    requires Deal(kv, executor, map[], c).Ok? && id !in After(kv, executor, c)
    ensures WellStored(After(kv, executor, c)) && Balances(After(kv, executor, c), id) == Balances(kv, id)
  {
    AfterIs(kv, executor, c);
    OwnerStep(kv, executor, c, id);
    match c {
      case New(cid, total) =>
        NewSupply(kv, executor, cid, total, id);
      case Mint(cid, amount) =>
        WriteBalance(kv, cid, executor, Add64(Balance(kv, cid, executor), amount), id);
      case Transfer(cid, amount, to) =>
        var v, w := Balance(kv, cid, executor) - amount, Add64(Balance(kv, cid, to), amount);
        WriteBalance(kv, cid, executor, v, id);
        WriteBalance(kv[BKey(cid, executor) := Put64(v)], cid, to, w, id);
      case Freeze(cid, a) =>
        PrefixedKeys(cid, a);
        WriteOther(kv, FKey(cid, a), [1], id);
      case Unfreeze(cid, a) =>
        PrefixedKeys(cid, a);
        WriteOther(kv, FKey(cid, a), [0], id);
    }
  }

  lemma FreezeKeyStep(kv: KV, executor: bytes, c: Call, id: bytes, a: bytes)
    requires WellStored(kv) && |executor| == ADDRESS_LENGTH && |a| == ADDRESS_LENGTH
    requires PlainId(c.id) && PlainAddresses(c) && PlainId(id)
    requires Deal(kv, executor, map[], c).Ok?
    ensures FKey(id, a) in After(kv, executor, c) && FKey(id, a) !in kv ==> c.id == id
    ensures c.id != id || (!c.New? && !c.Freeze? && !c.Unfreeze?) ==>
              (FKey(id, a) in After(kv, executor, c) <==> FKey(id, a) in kv)
              && (FKey(id, a) in kv ==> After(kv, executor, c)[FKey(id, a)] == kv[FKey(id, a)])
  {
    AfterIs(kv, executor, c);
    KeyFamilies(id, a, c.id, executor);
    KeyFamilies(c.id, executor, id, a);
    assert FKey(id, a) != c.id by { PrefixedKeys(id, a); }
    if c.Transfer? {
      KeyFamilies(c.id, c.to, id, a);
    } else if c.Freeze? || c.Unfreeze? {
      KeyFamilies(c.id, c.addr, id, a);
    }
  }

  lemma FreezeKept(kv: KV, executor: bytes, c: Call, id: bytes, a: bytes)
    requires Wired(kv) && |executor| == ADDRESS_LENGTH && |a| == ADDRESS_LENGTH
    requires PlainId(c.id) && PlainAddresses(c) && PlainId(id)
    requires Frozen(kv, id, a) && c != Unfreeze(id, a)
    requires Deal(kv, executor, map[], c).Ok?
    ensures Frozen(After(kv, executor, c), id, a)
  {
    FreezeKeyStep(kv, executor, c, id, a);
    if c.id == id {
      AfterIs(kv, executor, c);
      if c.Freeze? || c.Unfreeze? {
        KeyFamilies(c.id, c.addr, id, a);
      }
    }
  }

  lemma BalanceAfterWrite(kv: KV, cid: bytes, addr: bytes, n: uint64, id: bytes, a: bytes)
    requires WellStored(kv) && |addr| == |a|
    ensures WellStored(kv[BKey(cid, addr) := Put64(n)])
    ensures Balance(kv[BKey(cid, addr) := Put64(n)], id, a)
         == if cid == id && addr == a then n else Balance(kv, id, a)
  {
    KeyFamilies(cid, addr, id, a);
    U64Put64(n);
  }

  lemma BalanceAfterOther(kv: KV, k: bytes, v: bytes, id: bytes, a: bytes)
    requires WellStored(kv) && !InFamily(k, B)
    ensures WellStored(kv[k := v]) && Balance(kv[k := v], id, a) == Balance(kv, id, a)
  {
    PrefixedKeys(id, a);
  }

  lemma TwoBalancesFit(kv: KV, id: bytes, from: bytes, a: bytes)
    requires WellStored(kv) && |from| == |a| == ADDRESS_LENGTH && from != a
    ensures Balance(kv, id, from) + Balance(kv, id, a) <= Supply(kv, id)
  {
    KeyFamilies(id, from, id, a);
    BalanceIsEntry(kv, id, from);
    BalanceIsEntry(kv, id, a);
    SumUpdate2(Balances(kv, id), BKey(id, from), 0, BKey(id, a), 0);
  }

  lemma TwoBalances(kv: KV, cid: bytes, from: bytes, f: uint64, to: bytes, t: uint64, id: bytes, a: bytes)
    requires WellStored(kv) && |from| == |to| == |a|
    ensures var kv2 := kv[BKey(cid, from) := Put64(f)][BKey(cid, to) := Put64(t)];
            && WellStored(kv2)
            && Balance(kv2, id, a) == if cid == id && to == a then t else if cid == id && from == a then f
                                      else Balance(kv, id, a)
  {
    BalanceAfterWrite(kv, cid, from, f, id, a);
    BalanceAfterWrite(kv[BKey(cid, from) := Put64(f)], cid, to, t, id, a);
  }

  lemma MovedReads(kv: KV, from: bytes, cid: bytes, amount: uint64, to: bytes, id: bytes, a: bytes)
    requires WellStored(kv) && |from| == |to| == |a| && amount <= Balance(kv, cid, from)
    ensures WellStored(Moved(kv, from, cid, amount, to))
    ensures Balance(Moved(kv, from, cid, amount, to), id, a) ==
            if cid == id && to == a then Add64(Balance(kv, cid, to), amount)
            else if cid == id && from == a then Balance(kv, cid, from) - amount
            else Balance(kv, id, a)
  {
    TwoBalances(kv, cid, from, Balance(kv, cid, from) - amount, to, Add64(Balance(kv, cid, to), amount), id, a);
  }

  lemma MovedBalance(kv: KV, from: bytes, cid: bytes, amount: uint64, to: bytes, id: bytes, a: bytes)
    requires WellStored(kv) && |from| == |to| == |a| == ADDRESS_LENGTH
    requires amount <= Balance(kv, cid, from) && !(cid == id && from == a)
    requires Supply(kv, id) < TWO_64
    ensures WellStored(Moved(kv, from, cid, amount, to))
    ensures Balance(Moved(kv, from, cid, amount, to), id, a) >= Balance(kv, id, a)
  {
    MovedReads(kv, from, cid, amount, to, id, a);
    if cid == id && to == a {
      TwoBalancesFit(kv, id, from, a);
    }
  }

  /** A frozen address stays frozen and its balance does not fall, whatever anybody executes,
      short of unfreezing it. */
  lemma FrozenStep(kv: KV, executor: bytes, c: Call, id: bytes, a: bytes)
    requires Wired(kv) && |executor| == ADDRESS_LENGTH && |a| == ADDRESS_LENGTH
    requires PlainId(c.id) && PlainAddresses(c) && PlainId(id)
    requires Frozen(kv, id, a) && c != Unfreeze(id, a)
    requires Supply(kv, id) + Minted(c, id) < TWO_64
    requires Deal(kv, executor, map[], c).Ok?
    ensures WellStored(After(kv, executor, c))
    ensures Frozen(After(kv, executor, c), id, a)
    ensures Balance(After(kv, executor, c), id, a) >= Balance(kv, id, a)
  {
    FreezeKept(kv, executor, c, id, a);
    match c {
      case New(cid, total) =>
        NewElsewhere(kv, executor, cid, total, id, a);
      case Mint(cid, amount) =>
        MintGives(kv, executor, cid, amount, id, a);
      case Transfer(cid, amount, to) =>
        AfterTransfer(kv, executor, cid, amount, to);
        MovedBalance(kv, executor, cid, amount, to, id, a);
      case Freeze(cid, addr) =>
        FlagOnly(kv, executor, c, id, a);
      case Unfreeze(cid, addr) =>
        FlagOnly(kv, executor, c, id, a);
    }
  }

  lemma MintGives(kv: KV, executor: bytes, cid: bytes, amount: uint64, id: bytes, a: bytes)
    requires WellStored(kv) && |executor| == |a| == ADDRESS_LENGTH
    requires Supply(kv, id) + Minted(Mint(cid, amount), id) < TWO_64
    requires Deal(kv, executor, map[], Mint(cid, amount)).Ok?
    ensures WellStored(After(kv, executor, Mint(cid, amount)))
    ensures Balance(After(kv, executor, Mint(cid, amount)), id, a) >= Balance(kv, id, a)
  {
    AfterIs(kv, executor, Mint(cid, amount));
    BalanceIsEntry(kv, cid, executor);
    BalanceAfterWrite(kv, cid, executor, Add64(Balance(kv, cid, executor), amount), id, a);
  }

  lemma FlagOnly(kv: KV, executor: bytes, c: Call, id: bytes, a: bytes)
    requires WellStored(kv) && (c.Freeze? || c.Unfreeze?) && Deal(kv, executor, map[], c).Ok?
    ensures WellStored(After(kv, executor, c)) && Balance(After(kv, executor, c), id, a) == Balance(kv, id, a)
  {
    AfterIs(kv, executor, c);
    PrefixedKeys(c.id, c.addr);
    BalanceAfterOther(kv, FKey(c.id, c.addr), if c.Freeze? then [1] else [0], id, a);
  }

  lemma NewElsewhere(kv: KV, executor: bytes, cid: bytes, total: uint64, id: bytes, a: bytes)
    requires Wired(kv) && |executor| == ADDRESS_LENGTH && |a| == ADDRESS_LENGTH
    requires PlainId(cid) && PlainId(id) && id in kv
    requires Deal(kv, executor, map[], New(cid, total)).Ok?
    ensures WellStored(After(kv, executor, New(cid, total)))
    ensures Balance(After(kv, executor, New(cid, total)), id, a) == Balance(kv, id, a)
  {
    NewSupply(kv, executor, cid, total, id);
    BalanceIsEntry(kv, id, a);
    BalanceIsEntry(After(kv, executor, New(cid, total)), id, a);
  }

  // ---------------------------------------------------------------- whole runs

  /** What a list of commands mints of one token. */
  function MintedIn(cs: seq<Call>, id: bytes): nat {
    if cs == [] then 0 else Minted(cs[0], id) + MintedIn(cs[1..], id)
  }

  /** The store after a run of transactions; each takes full effect or none. */
  function Run(kv: KV, txs: seq<Tx>): KV
    requires WellStored(kv) && forall i :: 0 <= i < |txs| ==> Regular(txs[i])
    decreases |txs|
  {
    if txs == [] then kv
    else
      assert Regular(txs[0]);
      ExecuteKeepsStored(kv, txs[0].executor, txs[0].cs);
      Run(Execute(kv, txs[0].executor, txs[0].cs), txs[1..])
  }

  lemma {:induction false} OverlayKeepsStored(db: KV, executor: bytes, mp: KV, cs: seq<Call>)
    requires WellStored(db) && WellStored(mp) && |executor| >= 8
    ensures Overlay(db, executor, mp, cs).Ok? ==> WellStored(Overlay(db, executor, mp, cs).value)
    decreases |cs|
  {
    if cs != [] {
      DealKeepsStored(db, executor, mp, cs[0]);
      if Deal(db, executor, mp, cs[0]).Ok? {
        OverlayKeepsStored(db, executor, Deal(db, executor, mp, cs[0]).value, cs[1..]);
      }
    }
  }

  lemma ExecuteKeepsStored(db: KV, executor: bytes, cs: seq<Call>)
    requires WellStored(db) && |executor| >= 8
    ensures WellStored(Execute(db, executor, cs))
  {
    OverlayKeepsStored(db, executor, map[], cs);
  }

  /** What a run mints of one token: the mint commands of the transactions that take effect. */
  function MintedByRun(kv: KV, txs: seq<Tx>, id: bytes): nat
    requires WellStored(kv) && forall i :: 0 <= i < |txs| ==> Regular(txs[i])
    decreases |txs|
  {
    if txs == [] then 0
    else
      assert Regular(txs[0]);
      ExecuteKeepsStored(kv, txs[0].executor, txs[0].cs);
      (if TakesEffect(kv, txs[0].executor, txs[0].cs) then MintedIn(txs[0].cs, id) else 0)
      + MintedByRun(Execute(kv, txs[0].executor, txs[0].cs), txs[1..], id)
  }

  predicate NoSelfTransfer(executor: bytes, cs: seq<Call>) {
    forall i :: 0 <= i < |cs| ==> cs[i].Transfer? ==> cs[i].to != executor
  }

  ghost predicate Bounded(kv: KV, cs: seq<Call>)
    requires WellStored(kv)
  {
    forall id :: PlainId(id) ==> Supply(kv, id) + MintedIn(cs, id) < TWO_64
  }

  /** A list run command by command keeps the books. */
  lemma {:induction false} DirectBooks(kv: KV, executor: bytes, cs: seq<Call>)
    requires Wired(kv) && Regular(Tx(executor, cs)) && NoSelfTransfer(executor, cs)
    requires Bounded(kv, cs)
    requires Direct(kv, executor, cs).Ok?
    ensures Wired(Direct(kv, executor, cs).value)
    ensures forall id :: PlainId(id) ==> Supply(Direct(kv, executor, cs).value, id) == Supply(kv, id) + MintedIn(cs, id)
    decreases |cs|
  {
    if cs != [] {
      var c := cs[0];
      var kv1 := After(kv, executor, c);
      WiredStep(kv, executor, c);
      forall id | PlainId(id) ensures Supply(kv1, id) == Supply(kv, id) + Minted(c, id) {
        assert Supply(kv, c.id) + MintedIn(cs, c.id) < TWO_64;
        SupplyStep(kv, executor, c, id);
      }
      assert Regular(Tx(executor, cs[1..])) by {
        assert forall i :: 0 <= i < |cs| - 1 ==> cs[1..][i] == cs[i + 1];
      }
      DirectBooks(kv1, executor, cs[1..]);
    }
  }

  /** Over any run, each token's balances sum to the amounts minted. */
  lemma {:induction false} SupplyIsMinted(kv: KV, txs: seq<Tx>)
    requires Wired(kv)
    requires forall i :: 0 <= i < |txs| ==> Regular(txs[i]) && NoSelfTransfer(txs[i].executor, txs[i].cs)
    requires forall id :: PlainId(id) ==> Supply(kv, id) + MintedByRun(kv, txs, id) < TWO_64
    ensures Wired(Run(kv, txs))
    ensures forall id :: PlainId(id) ==> Supply(Run(kv, txs), id) == Supply(kv, id) + MintedByRun(kv, txs, id)
    decreases |txs|
  {
    if txs != [] {
      var tx := txs[0];
      var kv1 := Execute(kv, tx.executor, tx.cs);
      ExecuteIsDirect(kv, tx.executor, tx.cs);
      ExecuteKeepsStored(kv, tx.executor, tx.cs);
      if TakesEffect(kv, tx.executor, tx.cs) {
        assert Tx(tx.executor, tx.cs) == tx;
        forall id | PlainId(id) ensures Supply(kv, id) + MintedIn(tx.cs, id) < TWO_64 {
          assert Supply(kv, id) + MintedByRun(kv, txs, id) < TWO_64;
        }
        DirectBooks(kv, tx.executor, tx.cs);
      }
      forall id | PlainId(id) ensures Supply(kv1, id) + MintedByRun(kv1, txs[1..], id) < TWO_64 {
        assert Supply(kv, id) + MintedByRun(kv, txs, id) < TWO_64;
      }
      SupplyIsMinted(kv1, txs[1..]);
    }
  }

  /** In particular from an empty store. */
  lemma SupplyFromScratch(txs: seq<Tx>)
    requires forall i :: 0 <= i < |txs| ==> Regular(txs[i]) && NoSelfTransfer(txs[i].executor, txs[i].cs)
    requires forall id :: PlainId(id) ==> MintedByRun(map[], txs, id) < TWO_64
    ensures Wired(Run(map[], txs))
    ensures forall id :: PlainId(id) ==> Supply(Run(map[], txs), id) == MintedByRun(map[], txs, id)
  {
    assert forall id :: Balances(map[], id) == map[];
    SupplyIsMinted(map[], txs);
  }

  lemma {:induction false} DirectOwner(kv: KV, executor: bytes, cs: seq<Call>, id: bytes)
    requires WellStored(kv) && Regular(Tx(executor, cs)) && PlainId(id) && id in kv
    requires Direct(kv, executor, cs).Ok?
    ensures id in Direct(kv, executor, cs).value && Direct(kv, executor, cs).value[id] == kv[id]
    decreases |cs|
  {
    if cs != [] {
      DealKeepsStored(kv, executor, map[], cs[0]);
      OwnerStep(kv, executor, cs[0], id);
      assert Regular(Tx(executor, cs[1..])) by {
        assert forall i :: 0 <= i < |cs| - 1 ==> cs[1..][i] == cs[i + 1];
      }
      DirectOwner(After(kv, executor, cs[0]), executor, cs[1..], id);
    }
  }

  /** Once a token exists its owner is the same after any run. */
  lemma {:induction false} OwnerForever(kv: KV, txs: seq<Tx>, id: bytes)
    requires WellStored(kv) && PlainId(id) && id in kv
    requires forall i :: 0 <= i < |txs| ==> Regular(txs[i])
    ensures id in Run(kv, txs) && Run(kv, txs)[id] == kv[id]
    decreases |txs|
  {
    if txs != [] {
      var tx := txs[0];
      assert Tx(tx.executor, tx.cs) == tx;
      ExecuteIsDirect(kv, tx.executor, tx.cs);
      ExecuteKeepsStored(kv, tx.executor, tx.cs);
      if TakesEffect(kv, tx.executor, tx.cs) {
        DirectOwner(kv, tx.executor, tx.cs, id);
      }
      OwnerForever(Execute(kv, tx.executor, tx.cs), txs[1..], id);
    }
  }

  predicate NeverUnfreezes(cs: seq<Call>, id: bytes, a: bytes) {
    forall i :: 0 <= i < |cs| ==> cs[i] != Unfreeze(id, a)
  }

  lemma {:induction false} DirectFrozen(kv: KV, executor: bytes, cs: seq<Call>, id: bytes, a: bytes)
    requires Wired(kv) && Regular(Tx(executor, cs)) && NoSelfTransfer(executor, cs)
    requires PlainId(id) && |a| == ADDRESS_LENGTH
    requires Bounded(kv, cs)
    requires Frozen(kv, id, a) && NeverUnfreezes(cs, id, a)
    requires Direct(kv, executor, cs).Ok?
    ensures WellStored(Direct(kv, executor, cs).value)
    ensures Frozen(Direct(kv, executor, cs).value, id, a)
    ensures Balance(Direct(kv, executor, cs).value, id, a) >= Balance(kv, id, a)
    decreases |cs|
  {
    if cs != [] {
      var c := cs[0];
      var kv1 := After(kv, executor, c);
      assert Supply(kv, id) + MintedIn(cs, id) < TWO_64;
      FrozenStep(kv, executor, c, id, a);
      WiredStep(kv, executor, c);
      assert Regular(Tx(executor, cs[1..])) by {
        assert forall i :: 0 <= i < |cs| - 1 ==> cs[1..][i] == cs[i + 1];
      }
      forall i | PlainId(i) ensures Supply(kv1, i) + MintedIn(cs[1..], i) < TWO_64 {
        assert Supply(kv, i) + MintedIn(cs, i) < TWO_64;
        assert Supply(kv, c.id) + MintedIn(cs, c.id) < TWO_64;
        SupplyStep(kv, executor, c, i);
      }
      DirectFrozen(kv1, executor, cs[1..], id, a);
    }
  }

  /** A frozen address stays frozen and its balance never falls over any run that does not
      unfreeze it. */
  lemma {:induction false} FrozenForever(kv: KV, txs: seq<Tx>, id: bytes, a: bytes)
    requires Wired(kv) && PlainId(id) && |a| == ADDRESS_LENGTH
    requires forall i :: 0 <= i < |txs| ==> Regular(txs[i]) && NoSelfTransfer(txs[i].executor, txs[i].cs)
    requires forall i :: PlainId(i) ==> Supply(kv, i) + MintedByRun(kv, txs, i) < TWO_64
    requires Frozen(kv, id, a) && forall i :: 0 <= i < |txs| ==> NeverUnfreezes(txs[i].cs, id, a)
    ensures WellStored(Run(kv, txs)) && Frozen(Run(kv, txs), id, a)
    ensures Balance(Run(kv, txs), id, a) >= Balance(kv, id, a)
    decreases |txs|
  {
    if txs != [] {
      var tx := txs[0];
      var kv1 := Execute(kv, tx.executor, tx.cs);
      assert Tx(tx.executor, tx.cs) == tx;
      ExecuteIsDirect(kv, tx.executor, tx.cs);
      ExecuteKeepsStored(kv, tx.executor, tx.cs);
      if TakesEffect(kv, tx.executor, tx.cs) {
        forall i | PlainId(i) ensures Supply(kv, i) + MintedIn(tx.cs, i) < TWO_64 {
          assert Supply(kv, i) + MintedByRun(kv, txs, i) < TWO_64;
        }
        DirectBooks(kv, tx.executor, tx.cs);
        DirectFrozen(kv, tx.executor, tx.cs, id, a);
      }
      forall i | PlainId(i) ensures Supply(kv1, i) + MintedByRun(kv1, txs[1..], i) < TWO_64 {
        assert Supply(kv, i) + MintedByRun(kv, txs, i) < TWO_64;
      }
      FrozenForever(kv1, txs[1..], id, a);
    }
  }
}
