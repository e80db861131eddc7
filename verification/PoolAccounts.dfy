/** Where every transaction goes: which of those popped are packed, which wait, which are dropped, and
    what one call of the pool does to all that are in it. */
module PoolAccounts {
  import opened Bytes
  import opened Options
  import opened Rewards
  import opened Ledger
  import opened TxHeaps
  import opened TxPool
  import opened PackingRules
  import T = TokenExec

  // ---------------------------------------------------------------- the condition

  /** How far a sender has come among the transactions popped so far: not at all, or to a nonce, with so
      much left to spend. */
  datatype Standing = Nowhere | At(nonce: nat, left: int)

  predicate Affordable(st: State, t: Transaction) {
    0 < Free(st, t.from) && t.amount <= Free(st, t.from)
  }

  /** The script, if there is one, runs. */
  predicate Runs(st: State, t: Transaction)
    requires T.WellStored(st.tokens) && ValidTx(t)
  {
    t.script != [] ==> ExecNew(st.tokens, t.script, t.from).Built?
  }

  /** What packing t sets aside: the amount, and the fee of a script. */
  function Cost(st: State, t: Transaction): int
    requires T.WellStored(st.tokens) && ValidTx(t)
  {
    if !Runs(st, t) then 0 else t.amount + if t.script != [] then t.fee else 0
  }

  /** The transactions popped so far decide it alone. */
  function StandingOf(st: State, popped: seq<Transaction>, s: bytes): Standing
    requires T.WellStored(st.tokens) && ValidTxs(popped)
  {
    if popped == [] then Nowhere
    else
      var u, t, n := StandingOf(st, popped[..|popped| - 1], s), popped[|popped| - 1], NonceOf(st.nonces, s);
      if t.from != s || t.nonce < n then u
      else if u.Nowhere? then
        if !Affordable(st, t) then Nowhere
        else if t.nonce == n then At(n, Free(st, s) - Cost(st, t))
        else At(n, Free(st, s))
      else if t.nonce == u.nonce + 1 && t.amount <= u.left then At(t.nonce, u.left - Cost(st, t))
      else u
  }

  /** It is next in line: with the chain nonce if it is its sender's first, else with the nonce after
      that reached, and can be paid of what is left. */
  predicate NextUp(st: State, popped: seq<Transaction>, t: Transaction)
    requires T.WellStored(st.tokens) && ValidTxs(popped)
  {
    match StandingOf(st, popped, t.from)
    case Nowhere => t.nonce == NonceOf(st.nonces, t.from) && Affordable(st, t)
    case At(m, left) => t.nonce == m + 1 && t.amount <= left
  }

  predicate Packs(st: State, popped: seq<Transaction>, t: Transaction)
    requires T.WellStored(st.tokens) && ValidTxs(popped) && ValidTx(t)
  {
    NextUp(st, popped, t) && Runs(st, t)
  }

  /** It waits: ahead of the chain nonce, not the one after that reached, and affordable unless an earlier
      one of its sender already was. */
  predicate Waits(st: State, popped: seq<Transaction>, t: Transaction)
    requires T.WellStored(st.tokens) && ValidTxs(popped)
  {
    && t.nonce > NonceOf(st.nonces, t.from)
    && match StandingOf(st, popped, t.from)
       case Nowhere => Affordable(st, t)
       case At(m, _) => t.nonce != m + 1
  }

  /** Those of `rest` that are packed, after `popped`, in their order. */
  function PackedOf(st: State, popped: seq<Transaction>, rest: seq<Transaction>): seq<Transaction>
    requires T.WellStored(st.tokens) && ValidTxs(popped) && ValidTxs(rest)
    decreases |rest|
  {
    if rest == [] then []
    else
      (if Packs(st, popped, rest[0]) then [rest[0]] else []) + PackedOf(st, popped + [rest[0]], rest[1..])
  }

  /** Those that wait. */
  function WaitingOf(st: State, popped: seq<Transaction>, rest: seq<Transaction>): multiset<Transaction>
    requires T.WellStored(st.tokens) && ValidTxs(popped) && ValidTxs(rest)
    decreases |rest|
  {
    if rest == [] then multiset{}
    else
      (if Waits(st, popped, rest[0]) then multiset{rest[0]} else multiset{})
      + WaitingOf(st, popped + [rest[0]], rest[1..])
  }

  /** And those that are neither packed nor wait. */
  function DroppedOf(st: State, popped: seq<Transaction>, rest: seq<Transaction>): multiset<Transaction>
    requires T.WellStored(st.tokens) && ValidTxs(popped) && ValidTxs(rest)
    decreases |rest|
  {
    if rest == [] then multiset{}
    else
      (if Packs(st, popped, rest[0]) || Waits(st, popped, rest[0]) then multiset{} else multiset{rest[0]})
      + DroppedOf(st, popped + [rest[0]], rest[1..])
  }

  /** Nothing is packed and waits too, so these are all. */
  lemma {:induction false} AllAccounted(st: State, popped: seq<Transaction>, rest: seq<Transaction>)
    requires T.WellStored(st.tokens) && ValidTxs(popped) && ValidTxs(rest)
    ensures multiset(rest)
         == multiset(PackedOf(st, popped, rest)) + WaitingOf(st, popped, rest) + DroppedOf(st, popped, rest)
    decreases |rest|
  {
    if rest != [] {
      AllAccounted(st, popped + [rest[0]], rest[1..]);
      assert rest == [rest[0]] + rest[1..];
    }
  }

  // ---------------------------------------------------------------- the loop keeps to it

  /** What the loop has noted of a sender says how far it has come. */
  ghost predicate Notes(st: State, popped: seq<Transaction>, p: Packing, s: bytes)
    requires T.WellStored(st.tokens) && ValidTxs(popped)
  {
    match StandingOf(st, popped, s)
    case Nowhere => s !in p.item && s !in p.balance
    case At(m, left) =>
      && s in p.item && s in p.balance && p.item[s] == m && p.balance[s] == left
      && NonceOf(st.nonces, s) <= m && left < 0x8000_0000_0000_0000
  }

  ghost predicate AllNoted(st: State, popped: seq<Transaction>, p: Packing)
    requires T.WellStored(st.tokens) && ValidTxs(popped)
  {
    forall s :: Notes(st, popped, p, s)
  }

  lemma LastPopped(st: State, popped: seq<Transaction>, t: Transaction, s: bytes)
    requires T.WellStored(st.tokens) && ValidTxs(popped) && ValidTx(t)
    ensures ValidTxs(popped + [t]) && (popped + [t])[..|popped|] == popped && (popped + [t])[|popped|] == t
    ensures t.from != s || t.nonce < NonceOf(st.nonces, s) ==>
              StandingOf(st, popped + [t], s) == StandingOf(st, popped, s)
  {
  }

  /** The effect of packing on the sender's notes. */
  lemma PackNotes(st: State, p: Packing, t: Transaction, n: uint64)
    requires Healthy(st) && ValidTx(t) && Small(t) && t.from in p.balance && PackTx(st, p, t, n).Some?
    requires t.amount <= p.balance[t.from] < 0x8000_0000_0000_0000
    ensures var q := PackTx(st, p, t, n).value;
            && q.pending == p.pending + (if Runs(st, t) then [t] else []) && q.queue == p.queue
            && t.from in q.item && q.item[t.from] == n
            && t.from in q.balance && q.balance[t.from] == p.balance[t.from] - Cost(st, t)
  {
    SetAside(p.balance[t.from], t);
    assert p.pending + [] == p.pending;
  }

  /** What one popped transaction does: packed, waiting, or neither. */
  ghost predicate Goes(st: State, popped: seq<Transaction>, p: Packing, t: Transaction, q: Packing)
    requires T.WellStored(st.tokens) && ValidTxs(popped) && ValidTx(t)
  {
    && q.pending == p.pending + (if Packs(st, popped, t) then [t] else [])
    && q.queue == (if Waits(st, popped, t) then Push(p.queue, t) else p.queue)
  }

  /** The first of its sender that is not dropped. */
  lemma FirstGoes(st: State, popped: seq<Transaction>, p: Packing, t: Transaction)
    requires Healthy(st) && ValidTxs(popped) && ValidTx(t) && Small(t) && Notes(st, popped, p, t.from)
    requires StandingOf(st, popped, t.from).Nowhere? && Consider(st, p, t).Some?
    ensures Goes(st, popped, p, t, Consider(st, p, t).value)
    ensures ValidTxs(popped + [t]) && Notes(st, popped + [t], Consider(st, p, t).value, t.from)
  {
    LastPopped(st, popped, t, t.from);
    FreeIs(st, t.from);
    assert p.pending + [] == p.pending;
    var n, s := NonceOf(st.nonces, t.from), t.from;
    if t.nonce >= n && Affordable(st, t) {
      var noted := p.(balance := p.balance[s := Int64(FreeBalance(st, s))]);
      assert Consider(st, p, t) == Decide(st, noted, t, n);
      if t.nonce == n {
        SetAside(noted.balance[s], t);
        PackNotes(st, noted, t, n);
      }
    }
  }

  /** The loop on a transaction of a sender it has notes on, in terms of the nonce m noted. */
  lemma DecideLater(st: State, p: Packing, t: Transaction, m: nat)
    requires T.WellStored(st.tokens) && ValidTx(t) && Small(t)
    requires t.from in p.item && t.from in p.balance && p.item[t.from] == m && NonceOf(st.nonces, t.from) <= m
    ensures Consider(st, p, t) ==
            if t.nonce == m + 1 then
              if t.amount <= p.balance[t.from] then PackTx(st, p, t, t.nonce) else Some(p)
            else if t.nonce > NonceOf(st.nonces, t.from) then Some(p.(queue := Push(p.queue, t)))
            else Some(p)
  {
    var n := NonceOf(st.nonces, t.from);
    if t.nonce >= n {
      assert Consider(st, p, t) == Decide(st, p, t, n);
      assert t.nonce == Add64(p.item[t.from], 1) && t.nonce != n <==> t.nonce == m + 1;
    }
  }

  lemma StandingNext(st: State, popped: seq<Transaction>, t: Transaction)
    requires T.WellStored(st.tokens) && ValidTxs(popped) && ValidTx(t)
    requires StandingOf(st, popped, t.from).At? && NonceOf(st.nonces, t.from) <= StandingOf(st, popped, t.from).nonce
    ensures ValidTxs(popped + [t])
    ensures var u := StandingOf(st, popped, t.from);
            StandingOf(st, popped + [t], t.from)
            == if t.nonce == u.nonce + 1 && t.amount <= u.left then At(t.nonce, u.left - Cost(st, t)) else u
  {
    LastPopped(st, popped, t, t.from);
  }

  lemma LaterGoes(st: State, popped: seq<Transaction>, p: Packing, t: Transaction)
    requires Healthy(st) && ValidTxs(popped) && ValidTx(t) && Small(t) && Notes(st, popped, p, t.from)
    requires StandingOf(st, popped, t.from).At? && Consider(st, p, t).Some?
    ensures Goes(st, popped, p, t, Consider(st, p, t).value)
    ensures ValidTxs(popped + [t]) && Notes(st, popped + [t], Consider(st, p, t).value, t.from)
  {
    var u := StandingOf(st, popped, t.from);
    DecideLater(st, p, t, u.nonce);
    StandingNext(st, popped, t);
    assert p.pending + [] == p.pending;
    if t.nonce == u.nonce + 1 && t.amount <= u.left {
      PackNotes(st, p, t, t.nonce);
    }
  }

  lemma OthersKeepNotes(st: State, popped: seq<Transaction>, p: Packing, t: Transaction, s: bytes)
    requires T.WellStored(st.tokens) && ValidTxs(popped) && ValidTx(t) && t.from != s && Notes(st, popped, p, s)
    requires Consider(st, p, t).Some?
    ensures ValidTxs(popped + [t]) && Notes(st, popped + [t], Consider(st, p, t).value, s)
  {
    LastPopped(st, popped, t, s);
    OthersSame(st, p, t, s);
  }

  /** One popped transaction is packed if it is next in line and its script runs, waits if it waits, and
      is dropped otherwise. */
  lemma OneGoes(st: State, popped: seq<Transaction>, p: Packing, t: Transaction)
    requires Healthy(st) && ValidTxs(popped) && ValidTx(t) && Small(t) && AllNoted(st, popped, p)
    requires Consider(st, p, t).Some?
    ensures Goes(st, popped, p, t, Consider(st, p, t).value)
    ensures ValidTxs(popped + [t]) && AllNoted(st, popped + [t], Consider(st, p, t).value)
  {
    assert Notes(st, popped, p, t.from);
    if StandingOf(st, popped, t.from).Nowhere? {
      FirstGoes(st, popped, p, t);
    } else {
      LaterGoes(st, popped, p, t);
    }
    forall s ensures Notes(st, popped + [t], Consider(st, p, t).value, s) {
      if s != t.from {
        OthersKeepNotes(st, popped, p, t, s);
      }
    }
  }

  /** How many of the list the loop pops before the block is full. */
  function Count(st: State, p: Packing, list: seq<Transaction>): (n: nat)
    requires T.WellStored(st.tokens) && ValidTxs(list)
    ensures n <= |list|
    decreases |list|
  {
    if list == [] || |p.pending| >= TOTAL_QUANTITY then 0
    else match Consider(st, p, list[0])
      case None => 0
      case Some(q) => 1 + Count(st, q, list[1..])
  }

  /** What popping `seen` after `popped` has made of p. */
  ghost predicate Gone(st: State, popped: seq<Transaction>, p: Packing, seen: seq<Transaction>, q: Packing)
    requires T.WellStored(st.tokens) && ValidTxs(popped) && ValidTxs(seen)
  {
    && q.pending == p.pending + PackedOf(st, popped, seen)
    && multiset(q.queue) == multiset(p.queue) + WaitingOf(st, popped, seen)
  }

  ghost predicate AllSmall(txs: seq<Transaction>) {
    ValidTxs(txs) && forall i :: 0 <= i < |txs| ==> Small(txs[i])
  }

  lemma FirstOf(st: State, popped: seq<Transaction>, t: Transaction, more: seq<Transaction>)
    requires T.WellStored(st.tokens) && ValidTxs(popped) && ValidTx(t) && ValidTxs(more) && ValidTxs(popped + [t])
    ensures ValidTxs([t] + more)
    ensures PackedOf(st, popped, [t] + more)
         == (if Packs(st, popped, t) then [t] else []) + PackedOf(st, popped + [t], more)
    ensures WaitingOf(st, popped, [t] + more)
         == (if Waits(st, popped, t) then multiset{t} else multiset{}) + WaitingOf(st, popped + [t], more)
  {
    assert ([t] + more)[0] == t && ([t] + more)[1..] == more;
  }

  lemma Associate(a: seq<Transaction>, b: seq<Transaction>, c: seq<Transaction>)
    ensures (a + b) + c == a + (b + c)
  {
  }

  lemma GoneFirst(st: State, popped: seq<Transaction>, p: Packing, t: Transaction, more: seq<Transaction>,
                  p1: Packing, q: Packing)
    requires T.WellStored(st.tokens) && ValidTxs(popped) && ValidTx(t) && ValidTxs(more) && ValidTxs(popped + [t])
    requires Goes(st, popped, p, t, p1) && Gone(st, popped + [t], p1, more, q)
    ensures ValidTxs([t] + more) && Gone(st, popped, p, [t] + more, q)
  {
    FirstOf(st, popped, t, more);
    PushKeeps(p.queue, t);
    Associate(p.pending, if Packs(st, popped, t) then [t] else [], PackedOf(st, popped + [t], more));
  }

  /** For every list of transactions that is popped: those that are next in line and whose scripts run are
      packed, in order; the queue gets exactly those that wait; and the rest are dropped. */
  lemma {:induction false} RestGoes(st: State, popped: seq<Transaction>, p: Packing, list: seq<Transaction>)
    requires Healthy(st) && ValidTxs(popped) && AllSmall(list) && AllNoted(st, popped, p)
    requires PackRest(st, p, list).Some?
    ensures var q, n := PackRest(st, p, list).value, Count(st, p, list);
            && ValidTxs(list[..n]) && Gone(st, popped, p, list[..n], q)
            && (n == |list| || |q.pending| >= TOTAL_QUANTITY)
    decreases |list|
  {
    if list == [] || |p.pending| >= TOTAL_QUANTITY {
      assert p.pending + [] == p.pending;
    } else {
      var t := list[0];
      OneGoes(st, popped, p, t);
      RestGoes(st, popped + [t], Consider(st, p, t).value, list[1..]);
      var p1 := Consider(st, p, t).value;
      var more := list[1..][..Count(st, p1, list[1..])];
      assert list[..Count(st, p, list)] == [t] + more;
      GoneFirst(st, popped, p, t, more, p1, PackRest(st, p, list).value);
    }
  }

  // ---------------------------------------------------------------- one call of the pool

  lemma {:induction false} HeapLeft(st: State, p: Packing, h: Heap)
    requires T.WellStored(st.tokens) && ValidTxs(PopOrder(h)) && PackHeap(st, p, h).Some?
    ensures var (q, left) := PackHeap(st, p, h).value;
            && PackRest(st, p, PopOrder(h)) == Some(q)
            && PopOrder(left) == PopOrder(h)[Count(st, p, PopOrder(h))..]
    decreases |h|
  {
    if h != [] && |p.pending| < TOTAL_QUANTITY {
      ValidPops(h);
      assert PopOrder(h)[1..] == PopOrder(Popped(h));
      HeapLeft(st, Consider(st, p, h[0]).value, Popped(h));
    }
  }

  /** Those the call pops. */
  function Seen(st: State, p: Packing, list: Heap): (r: seq<Transaction>)
    requires T.WellStored(st.tokens) && ValidTxs(PopOrder(list))
    ensures ValidTxs(r)
  {
    PopOrder(list)[..Count(st, p, PopOrder(list))]
  }

  lemma HeapSplits(st: State, p: Packing, list: Heap)
    requires T.WellStored(st.tokens) && ValidTxs(PopOrder(list)) && PackHeap(st, p, list).Some?
    ensures multiset(list) == multiset(Seen(st, p, list)) + multiset(PackHeap(st, p, list).value.1)
    ensures Count(st, p, PopOrder(list)) == |list| ==> PackHeap(st, p, list).value.1 == []
  {
    HeapLeft(st, p, list);
    var left, n := PackHeap(st, p, list).value.1, Count(st, p, PopOrder(list));
    PopOrderKeeps(list);
    PopOrderKeeps(left);
    Joins(PopOrder(list), n);
  }

  lemma Joins(s: seq<Transaction>, n: nat)
    requires n <= |s|
    ensures multiset(s) == multiset(s[..n]) + multiset(s[n..])
  {
    assert s == s[..n] + s[n..];
  }

  lemma HeapGoes(st: State, p: Packing, list: Heap)
    requires Healthy(st) && AllSmall(PopOrder(list)) && p.item == map[] && p.balance == map[]
    requires PackHeap(st, p, list).Some?
    ensures var (q, left) := PackHeap(st, p, list).value;
            Gone(st, [], p, Seen(st, p, list), q) && (left == [] || |q.pending| >= 500)
  {
    NothingNoted(st, p);
    HeapLeft(st, p, list);
    RestGoes(st, [], p, PopOrder(list));
    HeapSplits(st, p, list);
  }

  lemma {:induction false} HeapFits(st: State, p: Packing, h: Heap)
    requires T.WellStored(st.tokens) && ValidTxs(PopOrder(h)) && PackHeap(st, p, h).Some? && |p.pending| <= 500
    ensures |PackHeap(st, p, h).value.0.pending| <= 500
    decreases |h|
  {
    if h != [] && |p.pending| < TOTAL_QUANTITY {
      ValidPops(h);
      PendingGrows(st, p, h[0]);
      HeapFits(st, Consider(st, p, h[0]).value, Popped(h));
    }
  }

  lemma NothingNoted(st: State, p: Packing)
    requires T.WellStored(st.tokens) && p.item == map[] && p.balance == map[]
    ensures AllNoted(st, [], p)
  {
  }

  /** Those of txs from j on that are ten seconds old. */
  function Expired(txs: seq<Transaction>, clock: nat -> int, j: nat): multiset<Transaction>
    requires j <= |txs|
    decreases |txs| - j
  {
    if j == |txs| then multiset{}
    else (if clock(j) - txs[j].time >= 10 then multiset{txs[j]} else multiset{}) + Expired(txs, clock, j + 1)
  }

  lemma {:induction false} YoungOrExpired(txs: seq<Transaction>, clock: nat -> int, j: nat)
    requires j <= |txs|
    ensures Young(txs, clock, j) + Expired(txs, clock, j) == multiset(txs[j..])
    decreases |txs| - j
  {
    if j < |txs| {
      YoungOrExpired(txs, clock, j + 1);
      assert txs[j..] == [txs[j]] + txs[j + 1..];
      assert multiset(txs[j..]) == multiset{txs[j]} + multiset(txs[j + 1..]);
      Regroup(Young(txs, clock, j + 1), Expired(txs, clock, j + 1), txs[j], clock(j) - txs[j].time < 10);
    }
  }

  lemma Regroup(young: multiset<Transaction>, expired: multiset<Transaction>, t: Transaction, isYoung: bool)
    ensures ((if isYoung then multiset{t} else multiset{}) + young)
            + ((if isYoung then multiset{} else multiset{t}) + expired)
         == multiset{t} + (young + expired)
  {
  }

  /** Those the call takes out of the queue. */
  function TakenOut(st: State, p: Packing, list: Heap): seq<Transaction>
    requires T.WellStored(st.tokens) && ValidTxs(PopOrder(list))
  {
    match PackHeap(st, p, list) case None => [] case Some((q, _)) => Taken(q.queue, 0)
  }

  /** Nothing gets lost in a call of Pendings but what is dropped and what has waited for ten seconds:
      what it pops is packed, in order, waits, or is dropped; and what was waiting, or is new to it, stays
      in the queue - half of it -, goes back to the list, or has expired. */
  lemma PendingsAccounts(st: State, p: Packing, list: Heap, clock: nat -> int)
    requires Healthy(st) && AllSmall(PopOrder(list)) && p.item == map[] && p.balance == map[]
    requires PackedRound(st, p, list, clock).Some?
    ensures var (after, rest) := PackedRound(st, p, list, clock).value;
            var seen, out := Seen(st, p, list), TakenOut(st, p, list);
            && after.pending == p.pending + PackedOf(st, [], seen)
            && (|p.pending| <= 500 ==> |after.pending| <= 500)
            && (PackHeap(st, p, list).value.1 != [] ==> |after.pending| >= 500)
            && multiset(p.queue) + WaitingOf(st, [], seen) == multiset(after.queue) + multiset(out)
            && |after.queue| == (|after.queue| + |out|) / 2
            && multiset(list) + multiset(p.queue)
               == multiset(PackedOf(st, [], seen)) + DroppedOf(st, [], seen) + Expired(out, clock, 0)
                  + multiset(after.queue) + multiset(rest)
  {
    var seen, out, left := Seen(st, p, list), TakenOut(st, p, list), PackHeap(st, p, list).value.1;
    HeapGoes(st, p, list);
    if |p.pending| <= 500 {
      HeapFits(st, p, list);
    }
    HeapSplits(st, p, list);
    QueueSplits(PackHeap(st, p, list).value.0.queue);
    AllAccounted(st, [], seen);
    BackAndExpired(left, out, clock);
    var (after, rest) := PackedRound(st, p, list, clock).value;
    Sums(multiset(list), multiset(p.queue), multiset(seen), multiset(left),
         multiset(PackedOf(st, [], seen)), WaitingOf(st, [], seen), DroppedOf(st, [], seen),
         multiset(out), multiset(after.queue), Young(out, clock, 0), Expired(out, clock, 0), multiset(rest));
  }

  lemma QueueSplits(queue: Heap)
    ensures multiset(queue) == multiset(Left(queue, 0)) + multiset(Taken(queue, 0))
    ensures |Left(queue, 0)| == (|Left(queue, 0)| + |Taken(queue, 0)|) / 2
  {
    TakenAndLeft(queue);
    LeftIsHalf(queue, 0);
    SizesAdd(Taken(queue, 0), Left(queue, 0), queue);
  }

  lemma BackAndExpired(left: Heap, out: seq<Transaction>, clock: nat -> int)
    ensures multiset(PutBack(left, out, clock, 0)) == multiset(left) + Young(out, clock, 0)
    ensures Young(out, clock, 0) + Expired(out, clock, 0) == multiset(out)
  {
    PutBackKeeps(left, out, clock, 0);
    YoungOrExpired(out, clock, 0);
    assert out[0..] == out;
  }

  lemma Sums(list: multiset<Transaction>, queue: multiset<Transaction>, seen: multiset<Transaction>,
             left: multiset<Transaction>, packed: multiset<Transaction>, waiting: multiset<Transaction>,
             dropped: multiset<Transaction>, out: multiset<Transaction>, kept: multiset<Transaction>,
             young: multiset<Transaction>, expired: multiset<Transaction>, rest: multiset<Transaction>)
    requires list == seen + left && seen == packed + waiting + dropped && queue + waiting == kept + out
    requires rest == left + young && young + expired == out
    ensures list + queue == packed + dropped + expired + kept + rest
  {
    forall x ensures (list + queue)[x] == (packed + dropped + expired + kept + rest)[x] {
      assert (queue + waiting)[x] == (kept + out)[x];
    }
  }

  lemma SizesAdd(a: seq<Transaction>, b: seq<Transaction>, c: seq<Transaction>)
    requires multiset(a) + multiset(b) == multiset(c)
    ensures |a| + |b| == |c|
  {
    assert multiset(a + b) == multiset(a) + multiset(b);
    SameSize(a + b, c);
  }

  // ---------------------------------------------------------------- what follows for one transaction

  lemma ValidTogether(a: seq<Transaction>, b: seq<Transaction>)
    ensures ValidTxs(a + b) <==> ValidTxs(a) && ValidTxs(b)
  {
    if ValidTxs(a + b) {
      assert forall i :: 0 <= i < |a| ==> a[i] == (a + b)[i];
      assert forall i :: 0 <= i < |b| ==> b[i] == (a + b)[|a| + i];
    }
  }

  lemma Shift(popped: seq<Transaction>, u: Transaction, rest: seq<Transaction>, b: seq<Transaction>)
    ensures popped + ([u] + rest) == (popped + [u]) + rest && ([u] + rest) + b == [u] + (rest + b)
  {
  }

  /** Popping one list after the other. */
  lemma {:induction false} PackedJoined(st: State, popped: seq<Transaction>, a: seq<Transaction>, b: seq<Transaction>)
    requires T.WellStored(st.tokens) && ValidTxs(popped) && ValidTxs(a) && ValidTxs(b)
    ensures ValidTxs(a + b) && ValidTxs(popped + a)
    ensures PackedOf(st, popped, a + b) == PackedOf(st, popped, a) + PackedOf(st, popped + a, b)
    decreases |a|, 0
  {
    ValidTogether(a, b);
    ValidTogether(popped, a);
    if a == [] {
      assert [] + b == b && popped + [] == popped && [] + PackedOf(st, popped, b) == PackedOf(st, popped, b);
    } else {
      assert a == [a[0]] + a[1..];
      PackedTail(st, popped, a[0], a[1..], b);
    }
  }

  lemma {:induction false} PackedTail(st: State, popped: seq<Transaction>, u: Transaction, rest: seq<Transaction>,
                                      b: seq<Transaction>)
    requires T.WellStored(st.tokens) && ValidTxs(popped) && ValidTx(u) && ValidTxs(rest) && ValidTxs(b)
    requires ValidTxs([u] + rest) && ValidTxs(([u] + rest) + b) && ValidTxs(popped + ([u] + rest))
    ensures PackedOf(st, popped, ([u] + rest) + b)
         == PackedOf(st, popped, [u] + rest) + PackedOf(st, popped + ([u] + rest), b)
    decreases |rest|, 1
  {
    Shift(popped, u, rest, b);
    ValidTogether(popped, [u]);
    ValidTogether(rest, b);
    PackedJoined(st, popped + [u], rest, b);
    FirstOf(st, popped, u, rest);
    FirstOf(st, popped, u, rest + b);
    Associate(if Packs(st, popped, u) then [u] else [], PackedOf(st, popped + [u], rest),
              PackedOf(st, (popped + [u]) + rest, b));
  }

  /** Whatever is popped around it, and with a script or without: a transaction that comes up before the
      block is full, is next in line and whose script runs is packed. */
  lemma NextUpIsPacked(st: State, p: Packing, list: Heap, a: seq<Transaction>, t: Transaction, b: seq<Transaction>)
    requires Healthy(st) && AllSmall(PopOrder(list)) && p.item == map[] && p.balance == map[]
    requires PackHeap(st, p, list).Some? && Seen(st, p, list) == a + ([t] + b)
    requires ValidTxs(a) && ValidTx(t) && NextUp(st, a, t) && Runs(st, t)
    ensures t in PackHeap(st, p, list).value.0.pending
  {
    HeapGoes(st, p, list);
    assert [] + a == a;
    ValidTogether(a, [t] + b);
    ValidTogether([t], b);
    PackedJoined(st, [], a, [t] + b);
    FirstOf(st, a, t, b);
  }

  // ---------------------------------------------------------------- adding

  lemma {:induction false} CountIsOf(list: seq<Transaction>, s: bytes)
    ensures CountFrom(list, s) == |Of(s, list)|
  {
    if list != [] {
      CountIsOf(list[..|list| - 1], s);
    }
  }

  /** The sender's nonce and its room allow it: the amount is within its balance, and amount and script fee
      are each within what is not locked, as uint64 subtraction gives it. */
  predicate RoomFor(st: State, t: Transaction) {
    && t.nonce >= NonceOf(st.nonces, t.from)
    && 500000 <= t.amount && t.amount <= Get(st.balances, t.from)
    && var room := (Get(st.balances, t.from) - Get(st.locks, t.from)) % TWO_64;
      t.amount as int <= room && (t.script != [] ==> 500000 <= t.fee && t.fee as int <= room)
  }

  /** A transaction is added exactly if the list is not too long, it is well formed, the sender can pay it,
      no nonce of the sender is there twice and not more than fifty of its transactions. Then the list has
      it, with the time of its arrival, beside all it had; otherwise the list is as it was. */
  lemma AddsExactly(st: State, list: Heap, t: Transaction, wellFormed: bool, orderGood: bool, now: int)
    ensures var (r, after) := AddTo(st, list, t, wellFormed, orderGood, now);
            && (r.Added? <==>
                  && |list| <= 1500 && wellFormed && orderGood && RoomFor(st, t)
                  && (forall x :: x in list ==> !SameSlot(x, t)) && |Of(t.from, list)| < 50)
            && (r.TooManyListed? <==> |list| > 1500)
            && (r.NotVerified? <==> |list| <= 1500 && !(wellFormed && orderGood && RoomFor(st, t)))
            && (if r.Added? then multiset(after) == multiset(list) + multiset{t.(time := now)} else after == list)
  {
    CountIsOf(list, t.from);
    PushKeeps(list, t.(time := now));
    RoomIs(st, t, wellFormed, orderGood);
    NoneListed(list, t);
  }

  lemma RoomIs(st: State, t: Transaction, wellFormed: bool, orderGood: bool)
    ensures Admits(st, t, wellFormed, orderGood) <==> wellFormed && orderGood && RoomFor(st, t)
  {
  }

  lemma NoneListed(list: Heap, t: Transaction)
    ensures (forall x :: x in list ==> !SameSlot(x, t))
            <==> forall i :: 0 <= i < |list| && list[i].from == t.from ==> list[i].nonce != t.nonce
  {
    if forall x :: x in list ==> !SameSlot(x, t) {
      forall i | 0 <= i < |list| && list[i].from == t.from ensures list[i].nonce != t.nonce {
        assert list[i] in list;
      }
    }
  }
}
