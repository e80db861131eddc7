/** How far the balances predicted for a list of transactions are from those the ledger writes when
    a block commits it. */
module Prediction {
  import opened Bytes
  import opened Rewards
  import opened Ledger
  import opened Conservation

  /** The predicted balance; an account without a prediction is taken to keep what it has. */
  function Foreseen(bal: Amounts, res: Amounts, a: bytes): uint64 {
    if a in res then res[a] else Get(bal, a)
  }

  ghost predicate TakesPart(a: bytes, txs: seq<Transaction>) {
    exists i :: 0 <= i < |txs| && (txs[i].from == a || txs[i].to == a)
  }

  /** What the rewards of a block give to a. */
  function CreditTo(a: bytes, first: seq<MinerTx>): nat {
    if first == [] then 0
    else
      var m := first[|first| - 1];
      CreditTo(a, first[..|first| - 1]) + if m.recAddress == a then m.amount else 0
  }

  /** What the ledger does to a's balance and the prediction leaves out: a script's fee goes to the
      miner, and is taken in the prediction only from a sender seen before; fees without a script are
      not predicted; and paying oneself leaves the amount on top. */
  function Missed(a: bytes, t: Transaction, seen: bool, minaddr: bytes): int {
    (if t.script != [] && a == minaddr then t.fee else 0)
    + (if a != t.from then 0
       else (if t.from == t.to then t.amount as int else -(t.fee as int))
            + if t.script != [] && seen then t.fee else 0)
  }

  ghost function AllMissed(a: bytes, txs: seq<Transaction>, minaddr: bytes): int {
    if txs == [] then 0
    else
      var init, t := txs[..|txs| - 1], txs[|txs| - 1];
      AllMissed(a, init, minaddr) + Missed(a, t, TakesPart(t.from, init), minaddr)
  }

  lemma TakesPartInit(a: bytes, txs: seq<Transaction>)
    requires txs != []
    ensures var init, t := txs[..|txs| - 1], txs[|txs| - 1];
            TakesPart(a, txs) <==> TakesPart(a, init) || t.from == a || t.to == a
  {
    var init, t := txs[..|txs| - 1], txs[|txs| - 1];
    if TakesPart(a, init) {
      var i :| 0 <= i < |init| && (init[i].from == a || init[i].to == a);
      assert txs[i] == init[i];
    }
    if TakesPart(a, txs) {
      var i :| 0 <= i < |txs| && (txs[i].from == a || txs[i].to == a);
      assert i < |init| ==> init[i] == txs[i];
    }
  }

  /** Predictions are made for exactly the accounts that take part. */
  lemma {:induction false} PredictedIff(bal: Amounts, txs: seq<Transaction>, a: bytes)
    ensures a in Predict(bal, map[], txs) <==> TakesPart(a, txs)
  {
    if txs != [] {
      PredictedIff(bal, txs[..|txs| - 1], a);
      TakesPartInit(a, txs);
    }
  }

  // ---------------------------------------------------------------- one transaction

  lemma Plus(x: uint64, y: uint64, z: int)
    requires Same64(x, z)
    ensures Same64(Add64(x, y), z + y)
  {
    Wrapped(x + y);
    Same64Refl(y);
    Same64Add(x, z, y, y);
    Same64Chain(Add64(x, y), x + y, z + y);
  }

  lemma Minus(x: uint64, y: uint64, z: int)
    requires Same64(x, z)
    ensures Same64(Sub64(x, y), z - y)
  {
    Wrapped(x - y);
    Same64Refl(-(y as int));
    Same64Add(x, z, -(y as int), -(y as int));
    Same64Chain(Sub64(x, y), x - y, z - y);
  }

  /** What the ledger does to a's balance. */
  function Moved(a: bytes, t: Transaction, minaddr: bytes): int {
    (if t.script != [] && a == minaddr then t.fee else 0)
    + (if a == t.to then t.amount else 0)
    - (if a == t.from && t.from != t.to then t.amount + t.fee else 0)
  }

  lemma LedgerMoves(now: Amounts, t: Transaction, minaddr: bytes, a: bytes, x: int)
    requires Same64(Get(now, a), x)
    ensures Same64(Get(Transfer(FeePaid(now, t, minaddr), t), a), x + Moved(a, t, minaddr))
  {
    var b := FeePaid(now, t, minaddr);
    var y := x + if t.script != [] && a == minaddr then t.fee else 0;
    if t.script != [] {
      Plus(Get(now, a), t.fee, x);
    }
    assert Same64(Get(b, a), y);
    if a == t.to {
      Plus(Get(b, a), t.amount, y);
    } else if a == t.from {
      PaidSame(Get(b, a), t);
      Same64Refl(-(t.amount as int) - t.fee);
      Same64Add(Get(b, a), y, -(t.amount as int) - t.fee, -(t.amount as int) - t.fee);
      Same64Chain(Paid(Get(b, a), t), Get(b, a) - t.amount - t.fee, y - t.amount - t.fee);
    }
  }

  /** What the prediction does to it. */
  function Guessed(a: bytes, t: Transaction, seen: bool): int {
    (if a == t.to then t.amount else 0)
    - (if a == t.from then t.amount + (if t.script != [] && seen then t.fee else 0) else 0)
  }

  lemma PredictionMoves(bal: Amounts, res: Amounts, t: Transaction, a: bytes, x: int)
    requires Same64(Foreseen(bal, res, a), x)
    ensures Same64(Foreseen(bal, PredictTx(bal, res, t), a), x + Guessed(a, t, t.from in res))
  {
    var y := x;
    var f := Foreseen(bal, res, a);
    if a == t.from {
      Minus(f, t.amount, x);
      y := x - t.amount;
      f := Sub64(f, t.amount);
      if t.script != [] && t.from in res {
        Minus(f, t.fee, y);
        y := y - t.fee;
        f := Sub64(f, t.fee);
      }
    }
    if a == t.to {
      Plus(f, t.amount, y);
    }
  }

  lemma MissedIs(a: bytes, t: Transaction, seen: bool, minaddr: bytes)
    ensures Missed(a, t, seen, minaddr) == Moved(a, t, minaddr) - Guessed(a, t, seen)
  {
  }

  // ---------------------------------------------------------------- all of them

  lemma {:induction false} Credited(bal: Amounts, first: seq<MinerTx>, a: bytes)
    ensures Same64(Get(CreditAll(bal, first), a), Get(bal, a) + CreditTo(a, first))
  {
    if first == [] {
      Same64Refl(Get(bal, a));
    } else {
      var init, m := first[..|first| - 1], first[|first| - 1];
      Credited(bal, init, a);
      if m.recAddress == a {
        Plus(Get(CreditAll(bal, init), a), m.amount, Get(bal, a) + CreditTo(a, init));
      }
    }
  }

  lemma Shift(l: int, f: int, f1: int, e: int, g: int)
    requires Same64(l, f + e) && Same64(f1, f + g)
    ensures Same64(l, f1 + e - g)
  {
    var j: int :| l == f + e + Laps(j);
    var k: int :| f1 == f + g + Laps(k);
    assert l == f1 + e - g + Laps(j - k);
  }

  lemma {:induction false} WrittenFrom(bal: Amounts, now: Amounts, txs: seq<Transaction>, minaddr: bytes,
                                       a: bytes, c: int)
    requires Same64(Get(now, a), Get(bal, a) + c)
    ensures Same64(Get(ApplyTxs(now, txs, minaddr), a),
                   Foreseen(bal, Predict(bal, map[], txs), a) + c + AllMissed(a, txs, minaddr))
  {
    if txs != [] {
      var init, t := txs[..|txs| - 1], txs[|txs| - 1];
      WrittenFrom(bal, now, init, minaddr, a, c);
      var l, res := ApplyTxs(now, init, minaddr), Predict(bal, map[], init);
      var f, d := Foreseen(bal, res, a), c + AllMissed(a, init, minaddr);
      LedgerMoves(l, t, minaddr, a, f + d);
      Same64Refl(f);
      PredictionMoves(bal, res, t, a, f);
      PredictedIff(bal, init, t.from);
      MissedIs(a, t, t.from in res, minaddr);
      Shift(Get(ApplyTxs(now, txs, minaddr), a), f, Foreseen(bal, Predict(bal, map[], txs), a),
            d + Moved(a, t, minaddr), Guessed(a, t, t.from in res));
    }
  }

  lemma Equal64(x: uint64, y: uint64, d: int)
    requires Same64(x, y + d)
    ensures x == y <==> Same64(d, 0)
  {
    var j: int :| x == y + d + Laps(j);
    if x == y {
      assert d == 0 + Laps(-j);
    }
    if Same64(d, 0) {
      var k: int :| d == 0 + Laps(k);
      assert x - y == Laps(j + k);
    }
  }

  /** For every block and every account, modulo 2^64: the balance written is the predicted one, what
      the block's rewards give the account, and what the prediction misses. So they agree if and only
      if the last two cancel. */
  lemma PredictionOff(bal: Amounts, b: Block, minaddr: bytes, a: bytes)
    ensures a in Predict(bal, map[], b.txs) <==> TakesPart(a, b.txs)
    ensures var written := Get(ApplyTxs(CreditAll(bal, b.firstTx), b.txs, minaddr), a);
            var predicted := Foreseen(bal, Predict(bal, map[], b.txs), a);
            var off := CreditTo(a, b.firstTx) + AllMissed(a, b.txs, minaddr);
            && Same64(written, predicted + off)
            && (written == predicted <==> Same64(off, 0))
  {
    PredictedIff(bal, b.txs, a);
    Credited(bal, b.firstTx, a);
    WrittenFrom(bal, CreditAll(bal, b.firstTx), b.txs, minaddr, a, CreditTo(a, b.firstTx));
    Equal64(Get(ApplyTxs(CreditAll(bal, b.firstTx), b.txs, minaddr), a), Foreseen(bal, Predict(bal, map[], b.txs), a),
            CreditTo(a, b.firstTx) + AllMissed(a, b.txs, minaddr));
  }

  predicate Plain(t: Transaction) {
    t.script == [] && t.fee == 0 && t.from != t.to
  }

  lemma {:induction false} PlainMissesNothing(a: bytes, txs: seq<Transaction>, minaddr: bytes)
    requires forall i :: 0 <= i < |txs| ==> Plain(txs[i])
    ensures AllMissed(a, txs, minaddr) == 0
  {
    if txs != [] {
      PlainMissesNothing(a, txs[..|txs| - 1], minaddr);
    }
  }

  /** For transactions between different accounts with neither fee nor script, the prediction is
      right for an account if and only if the block's rewards give it nothing, modulo 2^64. */
  lemma PredictionAgrees(bal: Amounts, b: Block, minaddr: bytes, a: bytes)
    requires forall i :: 0 <= i < |b.txs| ==> Plain(b.txs[i])
    ensures var written := Get(ApplyTxs(CreditAll(bal, b.firstTx), b.txs, minaddr), a);
            written == Foreseen(bal, Predict(bal, map[], b.txs), a) <==> Same64(CreditTo(a, b.firstTx), 0)
  {
    PredictionOff(bal, b, minaddr, a);
    PlainMissesNothing(a, b.txs, minaddr);
  }
}
