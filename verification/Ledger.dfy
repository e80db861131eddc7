/** The ledger of blockchain/blockchain.go: blocks move balances and nonces inside one store
    transaction, locks reserve part of a balance. Amounts are uint64 and wrap around. */
module Ledger {
  import opened Bytes
  import opened Options
  import opened MapSum
  import opened Rewards
  import S = Script
  import T = TokenExec

  type Amounts = map<bytes, uint64>

  datatype State = State(height: uint64, balances: Amounts, nonces: Amounts, locks: Amounts, tokens: T.KV)

  /** A missing record reads as zero. */
  function Get(m: Amounts, a: bytes): uint64 {
    if a in m then m[a] else 0
  }

  /** GetNonce: an account without a record has nonce 1. */
  function NonceOf(m: Amounts, a: bytes): uint64 {
    if a in m then m[a] else 1
  }

  // ---------------------------------------------------------------- scripts

  datatype ScriptRun = Built(mp: T.KV) | Refused | Crashed

  /** A parsed command as the executor's functions read its arguments. */
  function ToCall(c: S.Command): Option<T.Call> {
    var v := seq(|c.args|, i requires 0 <= i < |c.args| => c.args[i].value);
    if c.name == S.NEW && |v| == 2 && v[0].Text? && v[1].Number? then Some(T.New(v[0].t, v[1].n))
    else if c.name == S.MINT && |v| == 2 && v[0].Text? && v[1].Number? then Some(T.Mint(v[0].t, v[1].n))
    else if c.name == S.TRANSFER && |v| == 3 && v[0].Text? && v[1].Number? && v[2].Text? then
      Some(T.Transfer(v[0].t, v[1].n, v[2].t))
    else if c.name == S.FREEZE && |v| == 2 && v[0].Text? && v[1].Text? then Some(T.Freeze(v[0].t, v[1].t))
    else if c.name == S.UNFREEZE && |v| == 2 && v[0].Text? && v[1].Text? then Some(T.Unfreeze(v[0].t, v[1].t))
    else None
  }

  /** exec.New on a parsed list; a nil script is dereferenced and crashes. */
  function BuildOverlay(kv: T.KV, owner: bytes, mp: T.KV, xs: seq<Option<S.Command>>): ScriptRun
    requires T.WellStored(kv) && T.WellStored(mp) && |owner| >= 8
    decreases |xs|
  {
    if xs == [] then Built(mp)
    else if xs[0] == None || ToCall(xs[0].value) == None then Crashed
    else
      var c := ToCall(xs[0].value).value;
      T.DealKeepsStored(kv, owner, mp, c);
      match T.Deal(kv, owner, mp, c)
      case Err => Refused
      case Ok(mp1) => BuildOverlay(kv, owner, mp1, xs[1..])
  }

  function ExecNew(kv: T.KV, script: bytes, owner: bytes): ScriptRun
    requires T.WellStored(kv) && |owner| >= 8
  {
    BuildOverlay(kv, owner, map[], S.Scripts(script))
  }

  lemma {:induction false} BuiltIsStored(kv: T.KV, owner: bytes, mp: T.KV, xs: seq<Option<S.Command>>)
    requires T.WellStored(kv) && T.WellStored(mp) && |owner| >= 8
    ensures BuildOverlay(kv, owner, mp, xs).Built? ==> T.WellStored(BuildOverlay(kv, owner, mp, xs).mp)
    decreases |xs|
  {
    if xs != [] && xs[0].Some? && ToCall(xs[0].value).Some? {
      var c := ToCall(xs[0].value).value;
      T.DealKeepsStored(kv, owner, mp, c);
      var r := T.Deal(kv, owner, mp, c);
      if r.Ok? {
        BuiltIsStored(kv, owner, r.value, xs[1..]);
      }
    }
  }

  /** AddBlock's script step: a refused script leaves no executor to flush, so Go panics; a flush the
      store refuses is only noted. */
  function RunScript(kv: T.KV, t: Transaction): (r: Option<T.KV>)
    requires T.WellStored(kv) && ValidTx(t)
    ensures r.Some? ==> T.WellStored(r.value)
  {
    if t.script == [] then Some(kv)
    else
      BuiltIsStored(kv, t.from, map[], S.Scripts(t.script));
      match ExecNew(kv, t.script, t.from)
      case Built(mp) => Some(T.FlushInto(kv, mp))
      case _ => None
  }

  ghost predicate ValidTxs(txs: seq<Transaction>) {
    forall i :: 0 <= i < |txs| ==> ValidTx(txs[i])
  }

  function RunScripts(kv: T.KV, txs: seq<Transaction>): (r: Option<T.KV>)
    requires T.WellStored(kv) && ValidTxs(txs)
    ensures r.Some? ==> T.WellStored(r.value)
  {
    if txs == [] then Some(kv)
    else
      var before := RunScripts(kv, txs[..|txs| - 1]);
      if before == None then None else RunScript(before.value, txs[|txs| - 1])
  }

  /** The contract store after the scripts of the first j transactions, or up to the first that
      makes Go panic. */
  function Flushed(kv: T.KV, txs: seq<Transaction>, j: nat): (r: T.KV)
    requires T.WellStored(kv) && ValidTxs(txs)
    ensures T.WellStored(r)
    decreases |txs|
  {
    if j == 0 || txs == [] then kv
    else match RunScript(kv, txs[0])
      case None => kv
      case Some(kv1) => Flushed(kv1, txs[1..], j - 1)
  }

  lemma FlushedNext(kv: T.KV, txs: seq<Transaction>, i: nat, j: nat)
    requires T.WellStored(kv) && ValidTxs(txs) && i < |txs| && i < j
    ensures ValidTxs(txs[i..]) && ValidTxs(txs[i + 1..])
    ensures Flushed(kv, txs[i..], j - i) ==
            match RunScript(kv, txs[i]) case None => kv case Some(kv1) => Flushed(kv1, txs[i + 1..], j - i - 1)
  {
    assert txs[i..][0] == txs[i] && txs[i..][1..] == txs[i + 1..];
  }

  lemma {:induction false} CrashStays(kv: T.KV, txs: seq<Transaction>, k: nat)
    requires T.WellStored(kv) && ValidTxs(txs) && k <= |txs|
    requires RunScripts(kv, txs[..k]) == None
    ensures RunScripts(kv, txs) == None
    decreases |txs|
  {
    if k < |txs| {
      assert txs[..|txs| - 1][..k] == txs[..k];
      CrashStays(kv, txs[..|txs| - 1], k);
    } else {
      assert txs[..k] == txs;
    }
  }

  lemma RunScriptsNext(kv: T.KV, txs: seq<Transaction>, i: nat)
    requires T.WellStored(kv) && ValidTxs(txs) && i < |txs|
    ensures RunScripts(kv, txs[..i + 1]) ==
            match RunScripts(kv, txs[..i]) case None => None case Some(kv1) => RunScript(kv1, txs[i])
  {
    assert txs[..i + 1][..i] == txs[..i];
  }

  /** Flushing on from transaction i over store kv1 comes to the same. */
  ghost predicate FlushesOn(kv: T.KV, txs: seq<Transaction>, j: nat, i: nat, kv1: T.KV)
    requires T.WellStored(kv) && T.WellStored(kv1) && ValidTxs(txs) && i <= |txs| && i <= j
  {
    ValidTxs(txs[i..]) && Flushed(kv, txs, j) == Flushed(kv1, txs[i..], j - i)
  }

  lemma FlushesNext(kv: T.KV, txs: seq<Transaction>, j: nat, i: nat, kv1: T.KV)
    requires T.WellStored(kv) && T.WellStored(kv1) && ValidTxs(txs) && i < |txs| && i < j
    requires FlushesOn(kv, txs, j, i, kv1) && RunScript(kv1, txs[i]).Some?
    ensures FlushesOn(kv, txs, j, i + 1, RunScript(kv1, txs[i]).value)
  {
    FlushedNext(kv1, txs, i, j);
  }

  /** Flushing ends behind the last transaction, at the crash, or where Go panics. */
  lemma FlushesEnd(kv: T.KV, txs: seq<Transaction>, j: nat, i: nat, kv1: T.KV)
    requires T.WellStored(kv) && T.WellStored(kv1) && ValidTxs(txs) && i <= |txs| && i <= j
    requires FlushesOn(kv, txs, j, i, kv1) && (i == j || i == |txs| || RunScript(kv1, txs[i]) == None)
    ensures Flushed(kv, txs, j) == kv1
  {
    if i < j && i < |txs| {
      FlushedNext(kv1, txs, i, j);
    }
  }

  lemma {:induction false} FlushedSplits(kv: T.KV, txs: seq<Transaction>, i: nat, j: nat)
    requires T.WellStored(kv) && ValidTxs(txs) && i <= |txs| && i <= j && RunScripts(kv, txs[..i]).Some?
    ensures FlushesOn(kv, txs, j, i, RunScripts(kv, txs[..i]).value)
  {
    if i == 0 {
      assert txs[0..] == txs;
    } else {
      RunScriptsNext(kv, txs, i - 1);
      FlushedSplits(kv, txs, i - 1, j);
      FlushesNext(kv, txs, j, i - 1, RunScripts(kv, txs[..i - 1]).value);
    }
  }

  /** What stays in the contract store when the script of transaction i makes Go panic. */
  lemma FlushedUpTo(kv: T.KV, txs: seq<Transaction>, i: nat)
    requires T.WellStored(kv) && ValidTxs(txs) && i < |txs| && RunScripts(kv, txs[..i]).Some?
    requires RunScript(RunScripts(kv, txs[..i]).value, txs[i]) == None
    ensures Flushed(kv, txs, |txs|) == RunScripts(kv, txs[..i]).value
  {
    FlushedSplits(kv, txs, i, |txs|);
    FlushedNext(RunScripts(kv, txs[..i]).value, txs, i, |txs|);
  }

  // ---------------------------------------------------------------- balances and nonces

  /** setMinerAccount and setMinerFee. */
  function Credit(bal: Amounts, to: bytes, amount: uint64): Amounts {
    bal[to := Add64(Get(bal, to), amount)]
  }

  function CreditAll(bal: Amounts, first: seq<MinerTx>): Amounts {
    if first == [] then bal
    else
      var m := first[|first| - 1];
      Credit(CreditAll(bal, first[..|first| - 1]), m.recAddress, m.amount)
  }

  /** setAccount on balances: both are read before either is written. */
  function Transfer(bal: Amounts, t: Transaction): Amounts {
    var fb, tb := Get(bal, t.from), Get(bal, t.to);
    var f := if t.fee != 0 then Sub64(Sub64(fb, t.amount), t.fee) else Sub64(fb, t.amount);
    bal[t.from := f][t.to := Add64(tb, t.amount)]
  }

  /** A scripted transaction pays its fee to the miner first. */
  function FeePaid(bal: Amounts, t: Transaction, minaddr: bytes): Amounts {
    if t.script != [] then Credit(bal, minaddr, t.fee) else bal
  }

  function ApplyTxs(bal: Amounts, txs: seq<Transaction>, minaddr: bytes): Amounts {
    if txs == [] then bal
    else
      var t := txs[|txs| - 1];
      Transfer(FeePaid(ApplyTxs(bal, txs[..|txs| - 1], minaddr), t, minaddr), t)
  }

  function ApplyNonces(nonces: Amounts, txs: seq<Transaction>): Amounts {
    if txs == [] then nonces
    else
      var t := txs[|txs| - 1];
      ApplyNonces(nonces, txs[..|txs| - 1])[t.from := Add64(t.nonce, 1)]
  }

  datatype Block = Block(height: uint64, txs: seq<Transaction>, firstTx: seq<MinerTx>)

  /** What a block does to everything but the contract store. The stored height grows by one whatever
      height the block claims. */
  function Booked(st: State, b: Block, minaddr: bytes): State {
    st.(height := Add64(st.height, 1), balances := ApplyTxs(CreditAll(st.balances, b.firstTx), b.txs, minaddr),
        nonces := ApplyNonces(st.nonces, b.txs))
  }

  /** The state after a block; None when a script makes Go panic. */
  function WithBlock(st: State, b: Block, minaddr: bytes): Option<State>
    requires T.WellStored(st.tokens) && ValidTxs(b.txs)
  {
    match RunScripts(st.tokens, b.txs)
    case None => None
    case Some(kv) =>
      Some(Booked(st, b, minaddr).(tokens := kv))
  }

  // ---------------------------------------------------------------- the Go form

  /** A store transaction: the records it has written so far. */
  class StoreTx {
    var balances: Amounts
    var nonces: Amounts

    constructor (balances: Amounts, nonces: Amounts)
      ensures this.balances == balances && this.nonces == nonces
    {
      this.balances := balances;
      this.nonces := nonces;
    }

    method SetMinerAccount(to: bytes, amount: uint64)
      modifies this`balances
      ensures balances == Credit(old(balances), to, amount)
    {
      if to !in balances {
        balances := balances[to := 0];
      }
      var toBalance := balances[to];
      balances := balances[to := Add64(toBalance, amount)];
    }

    method SetAccount(t: Transaction)
      modifies this
      ensures balances == Transfer(old(balances), t)
      ensures nonces == old(nonces)[t.from := Add64(t.nonce, 1)]
    {
      if t.to !in balances {
        balances := balances[t.to := 0];
      }
      var toBalance := balances[t.to];
      var fromBalance := Get(balances, t.from);
      if t.fee != 0 {
        fromBalance := Sub64(fromBalance, t.amount);
        fromBalance := Sub64(fromBalance, t.fee);
      } else {
        fromBalance := Sub64(fromBalance, t.amount);
      }
      toBalance := Add64(toBalance, t.amount);
      balances := balances[t.from := fromBalance];
      balances := balances[t.to := toBalance];
      nonces := nonces - {t.from};
      nonces := nonces[t.from := Add64(t.nonce, 1)];
    }
  }

  class Blockchain {
    var height: uint64
    var balances: Amounts
    var nonces: Amounts
    var locks: Amounts
    var cdb: T.KV

    ghost function Now(): State
      reads this
    {
      State(height, balances, nonces, locks, cdb)
    }

    constructor (st: State)
      ensures Now() == st
    {
      height, balances, nonces, locks, cdb := st.height, st.balances, st.nonces, st.locks, st.tokens;
    }

    /** Runs a transaction's script on the contract store; false stands for Go's panic. */
    method FlushScript(t: Transaction) returns (ok: bool)
      requires T.WellStored(cdb) && ValidTx(t) && t.script != []
      modifies this`cdb
      ensures T.WellStored(cdb)
      ensures var r := RunScript(old(cdb), t); ok == r.Some? && cdb == if ok then r.value else old(cdb)
    {
      BuiltIsStored(cdb, t.from, map[], S.Scripts(t.script));
      var e := ExecNew(cdb, t.script, t.from);
      if !e.Built? {
        return false;
      }
      var _, kv := T.WriteAll(cdb, e.mp);
      cdb := kv;
      return true;
    }

    /** On a panic the store transaction is lost, but scripts flushed before it stay. */
    method AddBlock(b: Block, minaddr: bytes) returns (ok: bool)
      requires T.WellStored(cdb) && ValidTxs(b.txs)
      modifies this
      ensures T.WellStored(cdb)
      ensures ok == WithBlock(old(Now()), b, minaddr).Some?
      ensures ok ==> Now() == WithBlock(old(Now()), b, minaddr).value
      ensures !ok ==> Now() == old(Now()).(tokens := Flushed(old(cdb), b.txs, |b.txs|))
    {
      var tx := new StoreTx(balances, nonces);
      var h := Add64(height, 1);
      for i := 0 to |b.firstTx|
        invariant fresh(tx) && unchanged(this)
        invariant tx.balances == CreditAll(balances, b.firstTx[..i]) && tx.nonces == nonces
      {
        assert b.firstTx[..i + 1][..i] == b.firstTx[..i];
        tx.SetMinerAccount(b.firstTx[i].recAddress, b.firstTx[i].amount);
      }
      assert b.firstTx[..|b.firstTx|] == b.firstTx;
      ok := ApplyAll(tx, b.txs, minaddr);
      if ok {
        height, balances, nonces := h, tx.balances, tx.nonces;
      }
    }

    /** AddBlock up to a crash while the loop is at transaction j: the store transaction is lost. */
    method CrashInAddBlock(txs: seq<Transaction>, j: nat)
      requires T.WellStored(cdb) && ValidTxs(txs)
      modifies this`cdb
      ensures cdb == Flushed(old(cdb), txs, j) && T.WellStored(cdb)
    {
      var i := 0;
      assert txs[0..] == txs;
      while i < j && i < |txs|
        invariant i <= |txs| && T.WellStored(cdb) && i <= j
        invariant FlushesOn(old(cdb), txs, j, i, cdb)
      {
        ghost var before := cdb;
        if txs[i].script != [] {
          var ok := FlushScript(txs[i]);
          if !ok {
            FlushesEnd(old(cdb), txs, j, i, cdb);
            return;
          }
        }
        FlushesNext(old(cdb), txs, j, i, before);
        i := i + 1;
      }
      FlushesEnd(old(cdb), txs, j, i, cdb);
    }

    /** AddBlock's loop over the transactions. */
    method ApplyAll(tx: StoreTx, txs: seq<Transaction>, minaddr: bytes) returns (ok: bool)
      requires T.WellStored(cdb) && ValidTxs(txs)
      modifies this`cdb, tx
      ensures T.WellStored(cdb)
      ensures ok == RunScripts(old(cdb), txs).Some?
      ensures ok ==> && cdb == RunScripts(old(cdb), txs).value
                     && tx.balances == ApplyTxs(old(tx.balances), txs, minaddr)
                     && tx.nonces == ApplyNonces(old(tx.nonces), txs)
      ensures !ok ==> cdb == Flushed(old(cdb), txs, |txs|)
    {
      for i := 0 to |txs|
        invariant T.WellStored(cdb)
        invariant RunScripts(old(cdb), txs[..i]) == Some(cdb)
        invariant tx.balances == ApplyTxs(old(tx.balances), txs[..i], minaddr)
        invariant tx.nonces == ApplyNonces(old(tx.nonces), txs[..i])
      {
        assert txs[..i + 1][..i] == txs[..i];
        var t := txs[i];
        if t.script != [] {
          var flushed := FlushScript(t);
          if !flushed {
            CrashStays(old(cdb), txs, i + 1);
            FlushedUpTo(old(cdb), txs, i);
            return false;
          }
          tx.SetMinerAccount(minaddr, t.fee);
        }
        tx.SetAccount(t);
      }
      assert txs[..|txs|] == txs;
      return true;
    }

    /** GetNonce writes the record of an account that has none. */
    method GetNonce(a: bytes) returns (n: uint64)
      modifies this`nonces
      ensures n == NonceOf(old(nonces), a) && nonces == old(nonces)[a := n]
    {
      if a !in nonces {
        nonces := nonces[a := 1];
        return 1;
      }
      return nonces[a];
    }

    method LockBalance(addr: bytes, amount: uint64) returns (ok: bool)
      modifies this`locks
      ensures (ok, locks) == Lock(old(balances), old(locks), addr, amount)
    {
      var addrBal := Get(balances, addr);
      var addrLockbal := Get(locks, addr);
      var lb := Add64(addrLockbal, amount);
      var num := Sub64(addrBal, addrLockbal);
      if lb > addrBal || amount > addrBal || amount > num {
        return false;
      }
      locks := locks[addr := Add64(amount, addrLockbal)];
      return true;
    }

    method UnlockBalance(addr: bytes, amount: uint64) returns (ok: bool)
      modifies this`locks
      ensures (ok, locks) == Unlock(old(locks), addr, amount)
    {
      var addrLockbal := Get(locks, addr);
      if amount > addrLockbal {
        return false;
      }
      locks := locks[addr := addrLockbal - amount];
      return true;
    }

    /** Calculationresults: fills the map of predicted balances in place. */
    method CalculationResults(txs: seq<Transaction>, res: Amounts) returns (txres: Amounts)
      ensures txres == Predict(balances, res, txs)
    {
      txres := res;
      for i := 0 to |txs|
        invariant txres == Predict(balances, res, txs[..i])
      {
        assert txs[..i + 1][..i] == txs[..i];
        var t := txs[i];
        if t.from in txres {
          var bal := Sub64(txres[t.from], t.amount);
          if t.script != [] {
            bal := Sub64(bal, t.fee);
          }
          txres := txres[t.from := bal];
        } else {
          txres := txres[t.from := Sub64(Get(balances, t.from), t.amount)];
        }
        if t.to in txres {
          txres := txres[t.to := Add64(txres[t.to], t.amount)];
        } else {
          txres := txres[t.to := Add64(Get(balances, t.to), t.amount)];
        }
      }
      assert txs[..|txs|] == txs;
    }
  }

  // ---------------------------------------------------------------- locks

  /** LockBalance, with both sums wrapping around as in Go. */
  function Lock(bal: Amounts, locks: Amounts, addr: bytes, amount: uint64): (bool, Amounts) {
    var b, l := Get(bal, addr), Get(locks, addr);
    if Add64(l, amount) > b || amount > b || amount > Sub64(b, l) then (false, locks)
    else (true, locks[addr := Add64(amount, l)])
  }

  function Unlock(locks: Amounts, addr: bytes, amount: uint64): (bool, Amounts) {
    if amount > Get(locks, addr) then (false, locks)
    else (true, locks[addr := Get(locks, addr) - amount])
  }

  predicate LockWithinBalance(bal: Amounts, locks: Amounts, a: bytes) {
    Get(locks, a) <= Get(bal, a)
  }

  ghost predicate Covered(bal: Amounts, locks: Amounts) {
    forall a :: LockWithinBalance(bal, locks, a)
  }

  lemma LockFits(bal: Amounts, locks: Amounts, addr: bytes, amount: uint64)
    requires LockWithinBalance(bal, locks, addr)
    ensures Lock(bal, locks, addr, amount).0 <==> Get(locks, addr) + amount <= Get(bal, addr)
    ensures Lock(bal, locks, addr, amount).1 ==
            if Get(locks, addr) + amount <= Get(bal, addr) then locks[addr := Get(locks, addr) + amount] else locks
  {
  }

  /** With every lock covered, a lock succeeds exactly when it fits in the free balance, wrapped
      sums notwithstanding, and every lock stays covered; an unlock exactly when it fits in the
      lock. */
  lemma LockIff(bal: Amounts, locks: Amounts, addr: bytes, amount: uint64)
    requires Covered(bal, locks)
    ensures Lock(bal, locks, addr, amount).0 <==> Get(locks, addr) + amount <= Get(bal, addr)
    ensures Lock(bal, locks, addr, amount).0 ==>
              Lock(bal, locks, addr, amount).1 == locks[addr := Get(locks, addr) + amount]
    ensures Covered(bal, Lock(bal, locks, addr, amount).1)
    ensures Covered(bal, Unlock(locks, addr, amount).1)
    ensures Lock(bal, locks, addr, amount).0 ==>
              Get(Unlock(Lock(bal, locks, addr, amount).1, addr, amount).1, addr) == Get(locks, addr)
  {
    assert LockWithinBalance(bal, locks, addr);
    LockFits(bal, locks, addr, amount);
    var l1 := Lock(bal, locks, addr, amount).1;
    forall a ensures LockWithinBalance(bal, l1, a) {
      assert LockWithinBalance(bal, locks, a);
    }
    var l2 := Unlock(locks, addr, amount).1;
    forall a ensures LockWithinBalance(bal, l2, a) {
      assert LockWithinBalance(bal, locks, a);
    }
  }

  /** Unlocking succeeds exactly within the lock, and then takes off just the amount; neither operation
      touches the lock of anybody else. */
  lemma UnlockIff(bal: Amounts, locks: Amounts, addr: bytes, amount: uint64, a: bytes)
    ensures Unlock(locks, addr, amount).0 <==> amount <= Get(locks, addr)
    ensures Get(Unlock(locks, addr, amount).1, addr) ==
            Get(locks, addr) - if amount <= Get(locks, addr) then amount else 0
    ensures a != addr ==> Get(Unlock(locks, addr, amount).1, a) == Get(locks, a)
                          && Get(Lock(bal, locks, addr, amount).1, a) == Get(locks, a)
  {
  }

  // ---------------------------------------------------------------- predicted balances

  function PredictTx(bal: Amounts, res: Amounts, t: Transaction): Amounts {
    var f := if t.from in res then
               (if t.script != [] then Sub64(Sub64(res[t.from], t.amount), t.fee) else Sub64(res[t.from], t.amount))
             else Sub64(Get(bal, t.from), t.amount);
    var r1 := res[t.from := f];
    r1[t.to := Add64(if t.to in r1 then r1[t.to] else Get(bal, t.to), t.amount)]
  }

  function Predict(bal: Amounts, res: Amounts, txs: seq<Transaction>): Amounts {
    if txs == [] then res else PredictTx(bal, Predict(bal, res, txs[..|txs| - 1]), txs[|txs| - 1])
  }
}
