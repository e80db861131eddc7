/** Transactions and the reward schedule of a block (transaction/transaction.go,
    blockchain/blockchain.go: Distr). */
module Rewards {
  import opened Bytes

  const EPOCH := 31536000
  const FIRST_REWARD: uint64 := 49460000000

  /** The fields of a transaction that the ledger and the pool look at. `root` is what its leader found
      its script to write; `ordered` stands for an attached order whose signature verifies, and
      `orderAddress` is who that order rewards. */
  datatype Transaction = Transaction(
    from: bytes, to: bytes, amount: uint64, nonce: uint64, fee: uint64, script: bytes, root: bytes,
    ordered: bool, orderAddress: bytes, time: int)

  datatype MinerTx = MinerTx(amount: uint64, recAddress: bytes)

  predicate ValidTx(t: Transaction) {
    |t.from| == ADDRESS_LENGTH && |t.to| == ADDRESS_LENGTH
  }

  /** The amount distributed per block in the x-th epoch: four fifths of the epoch before. */
  function EpochReward(x: nat): (r: uint64)
    ensures r <= FIRST_REWARD
  {
    if x == 0 then FIRST_REWARD else EpochReward(x - 1) * 8 / 10
  }

  function OrderCount(txs: seq<Transaction>): (n: nat)
    ensures n <= |txs|
  {
    if txs == [] then 0 else OrderCount(txs[..|txs| - 1]) + if txs[|txs| - 1].ordered then 1 else 0
  }

  function OrderRewards(txs: seq<Transaction>, amount: uint64): seq<MinerTx> {
    if txs == [] then []
    else OrderRewards(txs[..|txs| - 1], amount)
         + if txs[|txs| - 1].ordered then [MinerTx(amount, txs[|txs| - 1].orderAddress)] else []
  }

  /** The reward transactions of a block at the given height. */
  function BlockRewards(txs: seq<Transaction>, minaddr: bytes, ds: bytes, cm: bytes, height: uint64): seq<MinerTx> {
    var distr := EpochReward(height / EPOCH);
    var n := OrderCount(txs);
    (if n != 0 then OrderRewards(txs, distr / 10 / n) + [MinerTx(distr / 10, ds)]
     else [MinerTx(distr * 2 / 10, ds)])
    + [MinerTx(distr * 4 / 10, minaddr), MinerTx(distr * 4 / 10, cm)]
  }

  /** Distr's first loop. */
  method EpochAmount(x: nat) returns (distr: uint64)
    ensures distr == EpochReward(x)
  {
    var total := FIRST_REWARD;
    distr := 0;
    var i := 0;
    while i <= x
      invariant 0 <= i <= x + 1
      invariant total == EpochReward(if i == 0 then 0 else i - 1)
      invariant i > 0 ==> distr == total
    {
      if i == 0 {
        distr := total;
      } else {
        distr := total * 8 / 10;
        total := distr;
      }
      i := i + 1;
    }
  }

  /** Its second loop counts the verified orders. */
  method CountOrders(txs: seq<Transaction>) returns (lenOrd: nat)
    ensures lenOrd == OrderCount(txs)
  {
    lenOrd := 0;
    for k := 0 to |txs|
      invariant lenOrd == OrderCount(txs[..k])
    {
      assert txs[..k + 1][..k] == txs[..k];
      if txs[k].ordered {
        lenOrd := lenOrd + 1;
      }
    }
    assert txs[..|txs|] == txs;
  }

  /** Its third loop pays them. */
  method PayOrders(txs: seq<Transaction>, amount: uint64) returns (minerTx: seq<MinerTx>)
    ensures minerTx == OrderRewards(txs, amount)
  {
    minerTx := [];
    for k := 0 to |txs|
      invariant minerTx == OrderRewards(txs[..k], amount)
    {
      assert txs[..k + 1][..k] == txs[..k];
      if txs[k].ordered {
        minerTx := minerTx + [MinerTx(amount, txs[k].orderAddress)];
      }
    }
    assert txs[..|txs|] == txs;
  }

  method Distr(txs: seq<Transaction>, minaddr: bytes, ds: bytes, cm: bytes, height: uint64)
    returns (minerTx: seq<MinerTx>)
    ensures minerTx == BlockRewards(txs, minaddr, ds, cm, height)
  {
    var distr := EpochAmount(height / EPOCH);
    var lenOrd := CountOrders(txs);
    if lenOrd != 0 {
      minerTx := PayOrders(txs, distr / 10 / lenOrd);
      minerTx := minerTx + [MinerTx(distr / 10, ds)];
    } else {
      minerTx := [MinerTx(distr * 2 / 10, ds)];
    }
    minerTx := minerTx + [MinerTx(distr * 4 / 10, minaddr)];
    minerTx := minerTx + [MinerTx(distr * 4 / 10, cm)];
  }

  function Total(ms: seq<MinerTx>): nat {
    if ms == [] then 0 else Total(ms[..|ms| - 1]) + ms[|ms| - 1].amount
  }

  lemma {:induction false} TotalConcat(a: seq<MinerTx>, b: seq<MinerTx>)
    ensures Total(a + b) == Total(a) + Total(b)
  {
    if b == [] {
      assert a + b == a;
    } else {
      TotalConcat(a, b[..|b| - 1]);
      assert (a + b)[..|a + b| - 1] == a + b[..|b| - 1];
    }
  }

  lemma {:induction false} OrderRewardsTotal(txs: seq<Transaction>, amount: uint64)
    ensures Total(OrderRewards(txs, amount)) == OrderCount(txs) * amount
  {
    if txs != [] {
      var rest := txs[..|txs| - 1];
      OrderRewardsTotal(rest, amount);
      if txs[|txs| - 1].ordered {
        var m := [MinerTx(amount, txs[|txs| - 1].orderAddress)];
        TotalConcat(OrderRewards(rest, amount), m);
        assert m[..0] == [];
        assert (OrderCount(rest) + 1) * amount == OrderCount(rest) * amount + amount;
      } else {
        assert OrderRewards(txs, amount) == OrderRewards(rest, amount);
      }
    }
  }

  lemma ShareBound(d: nat, n: nat)
    requires n > 0
    ensures d - n < n * (d / n) <= d
  {
  }

  lemma TotalOne(m: MinerTx)
    ensures Total([m]) == m.amount
  {
    assert [m][..0] == [];
  }

  lemma TotalTwo(m: MinerTx, k: MinerTx)
    ensures Total([m, k]) == m.amount + k.amount
  {
    TotalOne(m);
    TotalOne(k);
    TotalConcat([m], [k]);
    assert [m, k] == [m] + [k];
  }

  lemma TotalOfParts(orders: seq<MinerTx>, m: MinerTx, a: MinerTx, c: MinerTx)
    ensures Total(orders + [m] + [a, c]) == Total(orders) + m.amount + a.amount + c.amount
  {
    TotalTwo(a, c);
    TotalOne(m);
    TotalConcat(orders, [m]);
    TotalConcat(orders + [m], [a, c]);
  }

  lemma SharedTotal(txs: seq<Transaction>, share: uint64, m: MinerTx, a: MinerTx, c: MinerTx)
    ensures Total(OrderRewards(txs, share) + [m] + [a, c]) == OrderCount(txs) * share + m.amount + a.amount + c.amount
  {
    OrderRewardsTotal(txs, share);
    TotalOfParts(OrderRewards(txs, share), m, a, c);
  }

  lemma BlockRewardsTotal(txs: seq<Transaction>, minaddr: bytes, ds: bytes, cm: bytes, height: uint64)
    ensures var distr, n := EpochReward(height / EPOCH), OrderCount(txs);
            Total(BlockRewards(txs, minaddr, ds, cm, height)) ==
            2 * (distr * 4 / 10) + if n != 0 then n * (distr / 10 / n) + distr / 10 else distr * 2 / 10
  {
    var distr, n := EpochReward(height / EPOCH), OrderCount(txs);
    var a, c := MinerTx(distr * 4 / 10, minaddr), MinerTx(distr * 4 / 10, cm);
    if n != 0 {
      SharedTotal(txs, distr / 10 / n, MinerTx(distr / 10, ds), a, c);
    } else {
      TotalOfParts([], MinerTx(distr * 2 / 10, ds), a, c);
      assert [] + [MinerTx(distr * 2 / 10, ds)] == [MinerTx(distr * 2 / 10, ds)];
    }
  }

  lemma RoundingBound(distr: nat)
    ensures distr - 4 < 2 * (distr * 4 / 10) + distr / 10 + distr / 10
    ensures 2 * (distr * 4 / 10) + distr / 10 + distr / 10 <= distr
    ensures distr - 4 < 2 * (distr * 4 / 10) + distr * 2 / 10 <= distr
  {
  }

  /** The rewards of one block never exceed its epoch's amount, however many orders share it,
      and rounding keeps back less than one unit per order and four more. */
  lemma BlockRewardsBound(txs: seq<Transaction>, minaddr: bytes, ds: bytes, cm: bytes, height: uint64)
    ensures EpochReward(height / EPOCH) - OrderCount(txs) - 4 < Total(BlockRewards(txs, minaddr, ds, cm, height))
            <= EpochReward(height / EPOCH)
  {
    var distr, n := EpochReward(height / EPOCH), OrderCount(txs);
    BlockRewardsTotal(txs, minaddr, ds, cm, height);
    RoundingBound(distr);
    if n != 0 {
      ShareBound(distr / 10, n);
    }
  }

  // ---------------------------------------------------------------- issuance over all heights

  const MAX_ISSUANCE: int := 5 * 31536000 * 49460000000

  const GENESIS: uint64 := 1000000000000000000

  /** What the blocks below height h may hand out. */
  ghost function IssuedBelow(h: nat): nat {
    if h == 0 then 0 else IssuedBelow(h - 1) + EpochReward((h - 1) / EPOCH)
  }

  lemma NextProduct(r: nat, e: nat)
    ensures (r + 1) * e == r * e + e
  {
  }

  lemma ProductBound(r: nat, e: nat, m: nat)
    requires r <= m
    ensures r * e <= m * e
  {
  }

  lemma NextInEpoch(h: nat)
    requires h > 0
    ensures var x, r := (h - 1) / 31536000, (h - 1) % 31536000;
            if r + 1 < 31536000 then h / 31536000 == x && h % 31536000 == r + 1
            else h / 31536000 == x + 1 && h % 31536000 == 0
  {
  }

  /** The schedule is geometric: within an epoch the sum grows by its amount per block, and five
      times what an epoch loses to the next pays for the whole epoch. */
  lemma {:induction false} IssuedSoFar(h: nat)
    ensures var e := EpochReward(h / 31536000);
            IssuedBelow(h) <= 157680000 * (49460000000 - e) + (h % 31536000) * e
  {
    if h > 0 {
      IssuedSoFar(h - 1);
      NextInEpoch(h);
      var x, r := (h - 1) / 31536000, (h - 1) % 31536000;
      var e := EpochReward(x);
      NextProduct(r, e);
      assert IssuedBelow(h) == IssuedBelow(h - 1) + e;
      if r + 1 == 31536000 {
        var e1 := EpochReward(x + 1);
        assert e1 == e * 8 / 10;
        assert (r + 1) * e == 31536000 * e;
      }
    }
  }

  /** All rewards over all heights stay below one fixed amount, and with the genesis credit the
      total is below 2^63. */
  lemma IssuanceBound(h: nat)
    ensures IssuedBelow(h) <= MAX_ISSUANCE
    ensures GENESIS + IssuedBelow(h) < TWO_63
  {
    IssuedSoFar(h);
    var e := EpochReward(h / 31536000);
    ProductBound(h % 31536000, e, 31536000);
    assert (h % 31536000) * e <= 31536000 * e;
  }
}
