/** Who is paid by the reward transactions of a block, and what (blockchain/blockchain.go: Distr). */
module Payouts {
  import opened Bytes
  import opened Rewards
  import opened Ledger
  import opened Conservation
  import opened Prediction

  /** The verified orders of a block that reward this address. */
  function OrdersFor(txs: seq<Transaction>, a: bytes): (n: nat)
    ensures n <= OrderCount(txs)
  {
    if txs == [] then 0
    else
      var t := txs[|txs| - 1];
      OrdersFor(txs[..|txs| - 1], a) + if t.ordered && t.orderAddress == a then 1 else 0
  }

  lemma {:induction false} CreditToJoined(a: bytes, x: seq<MinerTx>, y: seq<MinerTx>)
    ensures CreditTo(a, x + y) == CreditTo(a, x) + CreditTo(a, y)
  {
    if y == [] {
      assert x + y == x;
    } else {
      CreditToJoined(a, x, y[..|y| - 1]);
      assert (x + y)[..|x + y| - 1] == x + y[..|y| - 1];
    }
  }

  lemma CreditToOne(a: bytes, m: MinerTx)
    ensures CreditTo(a, [m]) == if m.recAddress == a then m.amount else 0
  {
    assert [m][..0] == [];
  }

  lemma {:induction false} OrdersPay(txs: seq<Transaction>, share: uint64, a: bytes)
    ensures CreditTo(a, OrderRewards(txs, share)) == OrdersFor(txs, a) * share
  {
    if txs != [] {
      var init, t := txs[..|txs| - 1], txs[|txs| - 1];
      OrdersPay(init, share, a);
      if t.ordered {
        var m := MinerTx(share, t.orderAddress);
        CreditToJoined(a, OrderRewards(init, share), [m]);
        CreditToOne(a, m);
        OneMore(OrdersFor(init, a), share);
      } else {
        assert OrderRewards(init, share) + [] == OrderRewards(init, share);
      }
    }
  }

  lemma OneMore(n: nat, share: nat)
    ensures (n + 1) * share == n * share + share
  {
  }

  lemma ThreePaid(a: bytes, orders: seq<MinerTx>, m: MinerTx, x: MinerTx, y: MinerTx)
    ensures CreditTo(a, (orders + [m]) + [x, y])
         == CreditTo(a, orders) + CreditTo(a, [m]) + CreditTo(a, [x]) + CreditTo(a, [y])
  {
    assert [x, y] == [x] + [y];
    CreditToJoined(a, orders + [m], [x, y]);
    CreditToJoined(a, orders, [m]);
    CreditToJoined(a, [x], [y]);
  }

  /** The share of one order: a tenth of the epoch's amount, over all orders. */
  function Share(txs: seq<Transaction>, height: uint64): nat {
    if OrderCount(txs) == 0 then 0 else EpochReward(height / 31536000) / 10 / OrderCount(txs)
  }

  /** What one address gets of a block: four tenths as its miner, four tenths as cm, one tenth as ds - two
      if there are no orders -, and one share for each verified order that names it. One address may be
      several of these. */
  lemma BlockPays(txs: seq<Transaction>, minaddr: bytes, ds: bytes, cm: bytes, height: uint64, a: bytes)
    ensures var epoch := EpochReward(height / 31536000);
            CreditTo(a, BlockRewards(txs, minaddr, ds, cm, height)) ==
            (if a == minaddr then epoch * 4 / 10 else 0)
            + (if a == cm then epoch * 4 / 10 else 0)
            + (if a != ds then 0 else if OrderCount(txs) == 0 then epoch * 2 / 10 else epoch / 10)
            + OrdersFor(txs, a) * Share(txs, height)
  {
    var epoch, n := EpochReward(height / EPOCH), OrderCount(txs);
    var x, y := MinerTx(epoch * 4 / 10, minaddr), MinerTx(epoch * 4 / 10, cm);
    CreditToOne(a, x);
    CreditToOne(a, y);
    if n != 0 {
      var m := MinerTx(epoch / 10, ds);
      CreditToOne(a, m);
      OrdersPay(txs, epoch / 10 / n, a);
      ThreePaid(a, OrderRewards(txs, epoch / 10 / n), m, x, y);
    } else {
      var m := MinerTx(epoch * 2 / 10, ds);
      CreditToOne(a, m);
      ThreePaid(a, [], m, x, y);
      assert [] + [m] == [m];
    }
  }

  /** So much does its balance grow, as long as it stays below 2^64. */
  lemma BlockCredits(bal: Amounts, txs: seq<Transaction>, minaddr: bytes, ds: bytes, cm: bytes, height: uint64,
                     a: bytes)
    ensures var first := BlockRewards(txs, minaddr, ds, cm, height);
            && Same64(Get(CreditAll(bal, first), a), Get(bal, a) + CreditTo(a, first))
            && (Get(bal, a) + CreditTo(a, first) < TWO_64 ==>
                  Get(CreditAll(bal, first), a) == Get(bal, a) + CreditTo(a, first))
  {
    var first := BlockRewards(txs, minaddr, ds, cm, height);
    Credited(bal, first, a);
    BelowWrap(Get(CreditAll(bal, first), a), Get(bal, a) + CreditTo(a, first));
  }

  lemma BelowWrap(x: uint64, y: nat)
    requires Same64(x, y)
    ensures y < TWO_64 ==> x == y
  {
  }

  /** The epoch's amount: it begins with 49460000000 and falls by a fifth each epoch, rounded down. */
  lemma EpochFalls(x: nat)
    ensures EpochReward(0) == 49460000000
    ensures 5 * EpochReward(x + 1) <= 4 * EpochReward(x) < 5 * EpochReward(x + 1) + 5
  {
  }
}
