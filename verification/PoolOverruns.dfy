/** How a full pool comes to take in more than its limit: the price heap holds a transaction twice, and making room
    counts its slots twice. */
module PoolOverruns {
  import opened Options
  import opened Transactions
  import opened TxLists
  import opened PoolViews
  import opened PoolSteps
  import opened PoolNonces
  import opened PricedLists
  import opened Noncers
  import opened PoolChanges
  import opened PoolTurns
  import opened TxPools
  import opened PoolExamples

  /** Transactions of one slot each, from different senders. */
  ghost predicate Singles(txs: seq<Tx>) {
    && (forall i :: 0 <= i < |txs| ==> NumSlots(txs[i]) == 1)
    && (forall i, j :: 0 <= i < j < |txs| ==> txs[i].from != txs[j].from)
  }

  ghost predicate AllPassing(txs: seq<Tx>, s: State, maxGas: nat) {
    forall i :: 0 <= i < |txs| ==> Passes(txs[i], s, maxGas, true)
  }

  /** The pool holds exactly `txs`, none of them pending. */
  ghost predicate HoldsAll(pool: TxPool, txs: set<Tx>)
    reads pool, pool.all
  {
    pool.pending == map[] && pool.all.Txs() == txs && pool.all.remotes == txs
  }

  /** Adds the first transaction of a sender. */
  method AddFirst(pool: TxPool, tx: Tx)
    requires InUse(pool) && HoldsAll(pool, pool.all.Txs()) && NoneFrom(pool.all.Txs(), tx.from)
    requires Passes(tx, pool.currentState, pool.currentMaxGas, true)
    requires |pool.all.Txs()| + NumSlots(tx) <= pool.Limit()
    modifies pool`pending, pool`queue, pool`beats, pool`locals, pool.all, pool.priced, pool.pendingNonces
    ensures InUse(pool) && HoldsAll(pool, old(pool.all.Txs()) + {tx})
    ensures multiset(pool.priced.remotes) == multiset(old(pool.priced.remotes)) + multiset{tx}
    ensures pool.priced.stales == old(pool.priced.stales)
  {
    FirstOfSender(pool.pending, pool.queue, pool.all.Txs(), tx, 0);
    pool.AlwaysAligned(pool.currentState);
    AddFresh(pool, tx, true, Any, pool.currentState);
  }

  lemma {:induction false} FewMembers(s: seq<Tx>)
    ensures |AsSet(s)| <= |s|
  {
    if s != [] {
      var rest, last := s[..|s| - 1], s[|s| - 1];
      FewMembers(rest);
      assert s == rest + [last];
      AsSetJoins(rest, [last]);
      assert AsSet([last]) == {last};
    }
  }

  /** What one more of `txs` means for those before it. */
  lemma OneMore(txs: seq<Tx>, i: nat)
    requires Singles(txs) && i < |txs|
    ensures NoneFrom(AsSet(txs[..i]), txs[i].from) && |AsSet(txs[..i])| <= i
    ensures AsSet(txs[..i + 1]) == AsSet(txs[..i]) + {txs[i]}
    ensures multiset(txs[..i + 1]) == multiset(txs[..i]) + multiset{txs[i]}
  {
    FewMembers(txs[..i]);
    assert txs[..i + 1] == txs[..i] + [txs[i]];
  }

  /** The pool has been filled with `txs`, and each of them is in the price heap once. */
  ghost predicate Filled(pool: TxPool, txs: seq<Tx>)
    reads pool, pool.all, pool.priced
  {
    HoldsAll(pool, AsSet(txs)) && multiset(pool.priced.remotes) == multiset(txs) && pool.priced.stales == 0
  }

  method FillNext(pool: TxPool, txs: seq<Tx>, i: nat)
    requires InUse(pool) && Singles(txs) && AllPassing(txs, pool.currentState, pool.currentMaxGas) && i < |txs| <= 4
    requires Filled(pool, txs[..i])
    modifies pool`pending, pool`queue, pool`beats, pool`locals, pool.all, pool.priced, pool.pendingNonces
    ensures InUse(pool) && Filled(pool, txs[..i + 1])
  {
    OneMore(txs, i);
    AddFirst(pool, txs[i]);
  }

  /** A new pool with four transactions queued. */
  method FourQueued(s: State, maxGas: nat, txs: seq<Tx>) returns (pool: TxPool)
    requires Singles(txs) && AllPassing(txs, s, maxGas) && |txs| == 4
    ensures fresh(pool) && fresh(pool.all) && fresh(pool.priced) && fresh(pool.pendingNonces)
    ensures InUse(pool) && pool.currentState == s && pool.currentMaxGas == maxGas && Filled(pool, txs)
  {
    pool := new TxPool(CONFIG, {}, s, maxGas, 1);
    FillAll(pool, txs);
  }

  method FillAll(pool: TxPool, txs: seq<Tx>)
    requires InUse(pool) && Singles(txs) && AllPassing(txs, pool.currentState, pool.currentMaxGas) && |txs| <= 4
    requires Filled(pool, [])
    modifies pool`pending, pool`queue, pool`beats, pool`locals, pool.all, pool.priced, pool.pendingNonces
    ensures InUse(pool) && Filled(pool, txs)
  {
    for i := 0 to |txs|
      invariant InUse(pool) && Filled(pool, txs[..i])
    {
      FillNext(pool, txs, i);
    }
    assert txs[..|txs|] == txs;
  }

  /** The cheapest transaction has been removed and added again before the heap was rebuilt: it is there twice. */
  method HeldTwiceRun(s: State, maxGas: nat, txs: seq<Tx>) returns (pool: TxPool)
    requires Singles(txs) && AllPassing(txs, s, maxGas) && |txs| == 4
    ensures fresh(pool) && fresh(pool.all) && fresh(pool.priced) && fresh(pool.pendingNonces)
    ensures InUse(pool) && pool.currentState == s && pool.currentMaxGas == maxGas && HoldsAll(pool, AsSet(txs))
    ensures multiset(pool.priced.remotes) == multiset(txs) + multiset{txs[0]}
  {
    pool := FourQueued(s, maxGas, txs);
    RemoveOne(pool, txs);
    AddBack(pool, txs);
  }

  method AddBack(pool: TxPool, txs: seq<Tx>)
    requires InUse(pool) && Singles(txs) && AllPassing(txs, pool.currentState, pool.currentMaxGas) && |txs| == 4
    requires HoldsAll(pool, AsSet(txs) - {txs[0]})
    modifies pool`pending, pool`queue, pool`beats, pool`locals, pool.all, pool.priced, pool.pendingNonces
    ensures InUse(pool) && HoldsAll(pool, AsSet(txs))
    ensures multiset(pool.priced.remotes) == multiset(old(pool.priced.remotes)) + multiset{txs[0]}
  {
    WithoutFirst(txs);
    AddFirst(pool, txs[0]);
  }

  /** The removal leaves its heap entry where it is. */
  method RemoveOne(pool: TxPool, txs: seq<Tx>)
    requires InUse(pool) && Singles(txs) && AllPassing(txs, pool.currentState, pool.currentMaxGas) && |txs| == 4
    requires Filled(pool, txs)
    modifies pool`pending, pool`queue, pool`beats, pool.all, pool.priced, pool.pendingNonces
    ensures InUse(pool) && HoldsAll(pool, AsSet(txs) - {txs[0]}) && pool.priced.remotes == old(pool.priced.remotes)
  {
    assert txs[0] in pool.all.Txs();
    SameSize(pool.priced.remotes, txs);
    pool.AlwaysAligned(pool.currentState);
    pool.RemoveTx(txs[0], true, {}, Any, pool.currentState);
  }

  lemma SameSize(s: seq<Tx>, t: seq<Tx>)
    requires multiset(s) == multiset(t)
    ensures |s| == |t|
  {
    assert |multiset(s)| == |s| && |multiset(t)| == |t|;
  }

  lemma WithoutFirst(txs: seq<Tx>)
    requires Singles(txs) && txs != []
    ensures NoneFrom(AsSet(txs) - {txs[0]}, txs[0].from) && |AsSet(txs) - {txs[0]}| <= |txs| - 1
    ensures txs[0] in AsSet(txs) && AsSet(txs) == (AsSet(txs) - {txs[0]}) + {txs[0]}
  {
    forall t | t in AsSet(txs) - {txs[0]}
      ensures t.from != txs[0].from && t in AsSet(txs[1..])
    {
      var i :| 0 <= i < |txs| && txs[i] == t;
      assert i > 0 && txs[1..][i - 1] == t;
    }
    FewMembers(txs[1..]);
    SubsetSize(AsSet(txs) - {txs[0]}, AsSet(txs[1..]));
  }

  /** Entries of one slot each weigh as much as they are many. */
  lemma {:induction false} SingleSlots(s: seq<Tx>)
    requires forall t :: t in s ==> NumSlots(t) == 1
    ensures SlotSum(s) == |s|
  {
    if s != [] {
      SingleSlots(s[..|s| - 1]);
    }
  }

  /** The cheapest live entry comes off the heap twice before any other does. */
  lemma TwiceDropped(dropped: set<Tx>, heap: seq<Tx>, live: set<Tx>, tx: Tx)
    requires DroppedBy(dropped, heap, live, 2, false) && tx in live && multiset(heap)[tx] >= 2
    requires forall t :: t in live ==> NumSlots(t) == 1 && (t == tx || tx.price < t.price)
    ensures dropped == {tx}
  {
    var drop :| dropped == AsSet(drop) && Prefix(drop, heap, live, 2, false);
    SingleSlots(drop);
    SingleSlots(drop[..|drop| - 1]);
    assert |drop| == 2;
    if multiset(drop)[tx] < multiset(heap)[tx] {
      assert PriceLe(drop[0], tx) && PriceLe(drop[1], tx);
    } else {
      assert multiset(drop)[tx] >= 2;
      TwoOfTwo(drop, tx);
    }
    assert drop == [tx, tx];
  }

  lemma TwoOfTwo(drop: seq<Tx>, tx: Tx)
    requires |drop| == 2 && multiset(drop)[tx] >= 2
    ensures drop == [tx, tx]
  {
    assert drop == [drop[0]] + [drop[1]];
    assert multiset(drop) == multiset{drop[0]} + multiset{drop[1]};
  }

  /** A newcomer of two slots comes to a full pool of four transactions, the cheapest of which is in the price heap
      twice. Only that one goes, and the pool takes in one slot more than its limit. */
  method OverrunRun(s: State, maxGas: nat, txs: seq<Tx>, rich: Tx) returns (pool: TxPool)
    requires Singles(txs) && AllPassing(txs, s, maxGas) && |txs| == 4
    requires forall i :: 0 < i < 4 ==> txs[0].price < txs[i].price
    requires Passes(rich, s, maxGas, true) && NumSlots(rich) == 2 && txs[0].price < rich.price
    requires forall i :: 0 <= i < 4 ==> txs[i].from != rich.from
    ensures pool.Valid() && pool.all.slots == pool.Limit() + 1
  {
    pool := HeldTwiceRun(s, maxGas, txs);
    AddRich(pool, txs, rich);
  }

  /** A newcomer of a new sender to a full pool that has something cheaper and enough of it. */
  method AddToFull(pool: TxPool, rich: Tx) returns (ghost dropped: set<Tx>)
    requires InUse(pool) && Passes(rich, pool.currentState, pool.currentMaxGas, true)
    requires NoneFrom(pool.all.Txs(), rich.from) && |pool.all.Txs()| + NumSlots(rich) > pool.Limit()
    requires !pool.Cheapest(rich) && pool.Excess(rich) <= SlotsOf(pool.all.remotes)
    modifies pool`pending, pool`queue, pool`beats, pool`locals, pool.all, pool.priced, pool.pendingNonces
    ensures pool.Valid() && pool.all.Txs() == old(pool.all.Txs()) - dropped + {rich}
    ensures DroppedBy(dropped, old(pool.priced.remotes), old(pool.all.remotes), old(pool.Excess(rich)), false)
  {
    ghost var outbid;
    var r;
    CoveredSlots(pool.priced.remotes, pool.all.remotes);
    pool.AlwaysAligned(pool.currentState);
    r, dropped, outbid := pool.Add(rich, false, true, PASSED, Any, pool.currentState);
    assert r == Accepted(false);
  }

  method AddRich(pool: TxPool, txs: seq<Tx>, rich: Tx)
    requires InUse(pool) && Singles(txs) && |txs| == 4
    requires HoldsAll(pool, AsSet(txs)) && multiset(pool.priced.remotes) == multiset(txs) + multiset{txs[0]}
    requires forall i :: 0 < i < 4 ==> txs[0].price < txs[i].price
    requires Passes(rich, pool.currentState, pool.currentMaxGas, true) && NumSlots(rich) == 2
    requires txs[0].price < rich.price && forall i :: 0 <= i < 4 ==> txs[i].from != rich.from
    modifies pool`pending, pool`queue, pool`beats, pool`locals, pool.all, pool.priced, pool.pendingNonces
    ensures pool.Valid() && pool.all.slots == pool.Limit() + 1
  {
    ghost var heap := pool.priced.remotes;
    FourSlots(txs, rich);
    ghost var dropped := AddToFull(pool, rich);
    TwiceDropped(dropped, heap, AsSet(txs), txs[0]);
    SlotsAdd(AsSet(txs) - {txs[0]}, rich);
  }

  lemma FourSlots(txs: seq<Tx>, rich: Tx)
    requires Singles(txs) && |txs| == 4 && forall i :: 0 <= i < 4 ==> txs[i].from != rich.from
    requires forall i :: 0 < i < 4 ==> txs[0].price < txs[i].price
    ensures |AsSet(txs)| == 4 && SlotsOf(AsSet(txs)) == 4 && SlotsOf(AsSet(txs) - {txs[0]}) == 3
    ensures rich !in AsSet(txs) && NoneFrom(AsSet(txs), rich.from) && txs[0] in AsSet(txs)
    ensures forall t :: t in AsSet(txs) ==> NumSlots(t) == 1 && (t == txs[0] || txs[0].price < t.price)
  {
    SingleSet(txs);
    forall t | t in AsSet(txs)
      ensures NumSlots(t) == 1 && (t == txs[0] || txs[0].price < t.price) && t.from != rich.from
    {
      var i :| 0 <= i < 4 && txs[i] == t;
    }
    SlotsAdd(AsSet(txs) - {txs[0]}, txs[0]);
    assert AsSet(txs) == (AsSet(txs) - {txs[0]}) + {txs[0]};
  }

  lemma {:induction false} SingleSet(s: seq<Tx>)
    requires Singles(s)
    ensures |AsSet(s)| == |s| && SlotsOf(AsSet(s)) == |s|
  {
    if s != [] {
      var rest, last := s[..|s| - 1], s[|s| - 1];
      SingleSet(rest);
      assert last !in AsSet(rest);
      assert s == rest + [last];
      assert AsSet(s) == AsSet(rest) + {last};
      SlotsAdd(AsSet(rest), last);
    }
  }

  const FUNDS := State(map[], map[1 := 1000000, 2 := 1000000, 3 := 1000000, 4 := 1000000, 5 := 20000000])
  const SMALL := [Transfer(1, 0, 1, 0), Transfer(2, 0, 2, 0), Transfer(3, 0, 2, 0), Transfer(4, 0, 2, 0)]
  const RICH := Tx(5, 0, 2, 5000000, 0, 40000, 0)

  lemma OverrunPasses()
    ensures AllPassing(SMALL, FUNDS, 8000000) && Passes(RICH, FUNDS, 8000000, true)
    ensures Singles(SMALL) && NumSlots(RICH) == 2
  {
    forall i | 0 <= i < 4
      ensures Passes(SMALL[i], FUNDS, 8000000, true) && NumSlots(SMALL[i]) == 1
    {
      PlainPasses(SMALL[i], FUNDS, 8000000, true);
    }
    PlainPasses(RICH, FUNDS, 8000000, true);
  }

  /** Such transactions: five plain senders, the newcomer with 40000 bytes of the 131072 allowed. */
  method OverrunInput() returns (pool: TxPool)
    ensures pool.Valid() && pool.all.slots > pool.Limit()
  {
    OverrunPasses();
    pool := OverrunRun(FUNDS, 8000000, SMALL, RICH);
  }
}
