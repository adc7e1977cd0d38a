/** The per-account transaction list: what each operation does to the entries and to the cached
    cost and gas caps, first on values and then as a class over the sorted map. */
module TxLists {
  import opened Options
  import opened Transactions
  import opened SortedMaps

  datatype TxListValue = TxListValue(strict: bool, items: Items, costcap: nat, gascap: nat)

  /** Entries are filed under their nonces and the caps bound every member. */
  ghost predicate WellFormed(l: TxListValue) {
    && Filed(l.items)
    && forall k :: k in l.items ==> l.items[k].Cost() <= l.costcap && l.items[k].gas <= l.gascap
  }

  function Max(a: nat, b: nat): nat {
    if a < b then b else a
  }

  /** The price a replacement must reach: the old price raised by `bump` percent, rounded down. */
  function Threshold(prev: Tx, bump: nat): nat {
    (100 + bump) * prev.price / 100
  }

  predicate Accepts(l: TxListValue, tx: Tx, bump: nat) {
    tx.nonce in l.items ==>
      l.items[tx.nonce].price < tx.price && Threshold(l.items[tx.nonce], bump) <= tx.price
  }

  function Added(l: TxListValue, tx: Tx): TxListValue {
    l.(items := l.items[tx.nonce := tx], costcap := Max(l.costcap, tx.Cost()), gascap := Max(l.gascap, tx.gas))
  }

  /** What an account with `cost` funds cannot pay, or a block with `gas` gas cannot take. */
  predicate Unpayable(tx: Tx, cost: nat, gas: nat) {
    tx.gas > gas || tx.Cost() > cost
  }

  function Overdrawn(m: Items, cost: nat, gas: nat): Items {
    map k | k in m && Unpayable(m[k], cost, gas) :: m[k]
  }

  /** The nonce from which a strict list is cut once `gone` is removed. */
  function Cut(strict: bool, m: Items, gone: Items): Items {
    if !strict || gone.Keys == {} then m - gone.Keys else Below(m - gone.Keys, Least(gone.Keys))
  }

  /** Removal by nonce; a strict list also gives up everything above. */
  function Removed(strict: bool, m: Items, nonce: nat): Items {
    if strict && nonce in m then Below(m, nonce) else m - {nonce}
  }

  /** Filtering without looking at the caps: the reference for Filter. */
  function Filtered(strict: bool, m: Items, cost: nat, gas: nat): Items {
    Cut(strict, m, Overdrawn(m, cost, gas))
  }

  function Capless(l: TxListValue, cost: nat, gas: nat): bool {
    l.costcap <= cost && l.gascap <= gas
  }

  /** Filter as the source runs it, with its early exit. */
  function Limited(l: TxListValue, cost: nat, gas: nat): TxListValue {
    if Capless(l, cost, gas) then l
    else l.(items := Filtered(l.strict, l.items, cost, gas), costcap := cost, gascap := gas)
  }

  /** The early exit changes nothing: filtering unconditionally gives the same entries. */
  lemma EarlyExitIsSound(l: TxListValue, cost: nat, gas: nat)
    requires WellFormed(l)
    ensures Limited(l, cost, gas).items == Filtered(l.strict, l.items, cost, gas)
    ensures Capless(l, cost, gas) ==> Overdrawn(l.items, cost, gas) == map[]
  {
    if Capless(l, cost, gas) {
      assert Overdrawn(l.items, cost, gas) == map[];
      assert l.items - Overdrawn(l.items, cost, gas).Keys == l.items;
    }
  }

  /** Filtering loses nothing and keeps the caps honest: what is kept, what is overdrawn and what is
      cut above the lowest overdrawn nonce are a partition, and everything kept can be paid. */
  lemma FilterPartitions(l: TxListValue, cost: nat, gas: nat)
    requires WellFormed(l)
    ensures var kept, gone := Limited(l, cost, gas).items, Overdrawn(l.items, cost, gas);
      && kept.Keys !! gone.Keys && SubItems(kept, l.items)
      && (forall k :: k in kept ==> !Unpayable(kept[k], cost, gas))
      && (!l.strict ==> kept.Keys + gone.Keys == l.items.Keys)
      && (forall k :: k in l.items && k !in kept && k !in gone ==>
            l.strict && (exists g :: g in gone && g < k))
    ensures WellFormed(Limited(l, cost, gas))
  {
    EarlyExitIsSound(l, cost, gas);
    CutPartitions(l.strict, l.items, Overdrawn(l.items, cost, gas));
  }

  lemma CutPartitions(strict: bool, m: Items, gone: Items)
    requires SubItems(gone, m)
    ensures var kept := Cut(strict, m, gone);
      && kept.Keys !! gone.Keys && SubItems(kept, m)
      && (!strict ==> kept.Keys + gone.Keys == m.Keys)
      && (forall k :: k in m && k !in kept && k !in gone ==> strict && (exists g :: g in gone && g < k))
  {
    if gone.Keys != {} {
      assert Least(gone.Keys) in gone;
    }
  }

  /** On a gapless strict list every operation that removes leaves a gapless list. */
  lemma StrictStaysGapless(l: TxListValue, cost: nat, gas: nat, n: nat)
    requires WellFormed(l) && l.strict && Gapless(l.items.Keys)
    ensures Gapless(AtLeast(l.items, n).Keys)
    ensures Gapless(Limited(l, cost, gas).items.Keys)
    ensures Gapless(Lowest(l.items, n).Keys)
    ensures Gapless(Removed(true, l.items, n).Keys)
  {
    EarlyExitIsSound(l, cost, gas);
    CutStaysGapless(l.items, Overdrawn(l.items, cost, gas));
    LowestStaysGapless(l.items, n);
    BoundsStayGapless(l.items, n);
  }

  lemma LowestStaysGapless(m: Items, n: nat)
    requires Gapless(m.Keys)
    ensures Gapless(Lowest(m, n).Keys)
  {
    LowestSplits(m, n);
    var low := Lowest(m, n);
    forall i, j, k | i in low && j in low && i <= k <= j
      ensures k in low
    {
      assert k in m;
    }
  }

  lemma BoundsStayGapless(m: Items, n: nat)
    requires Gapless(m.Keys)
    ensures Gapless(AtLeast(m, n).Keys) && Gapless(Removed(true, m, n).Keys)
  {
    var a, r := AtLeast(m, n), Removed(true, m, n);
    forall i, j, k | i in a && j in a && i <= k <= j
      ensures k in a
    {
      assert k in m;
    }
    forall i, j, k | i in r && j in r && i <= k <= j
      ensures k in r
    {
      assert k in m;
    }
  }

  lemma CutStaysGapless(m: Items, gone: Items)
    requires Gapless(m.Keys) && gone.Keys <= m.Keys
    ensures Gapless(Cut(true, m, gone).Keys)
  {
    var r := Cut(true, m, gone);
    forall i, j, k | i in r && j in r && i <= k <= j
      ensures k in r
    {
      assert k in m;
    }
  }

  class TxList {
    const strict: bool
    const txs: SortedMap
    var costcap: nat
    var gascap: nat

    ghost function Value(): TxListValue
      reads this, txs
    {
      TxListValue(strict, txs.items, costcap, gascap)
    }

    ghost predicate Valid()
      reads this, txs
    {
      txs.Valid() && WellFormed(Value())
    }

    constructor (strict: bool)
      ensures Valid() && fresh(txs) && Value() == TxListValue(strict, map[], 0, 0)
    {
      this.strict, costcap, gascap := strict, 0, 0;
      var m := new SortedMap();
      txs := m;
    }

    /** Inserts `tx` unless a transaction with the same nonce is there and not outbid. */
    method Add(tx: Tx, priceBump: nat) returns (inserted: bool, replaced: Option<Tx>)
      requires Valid()
      modifies this, txs
      ensures Valid()
      ensures inserted <==> Accepts(old(Value()), tx, priceBump)
      ensures Value() == if inserted then Added(old(Value()), tx) else old(Value())
      ensures replaced ==
        if inserted && tx.nonce in old(Value()).items then Some(old(Value()).items[tx.nonce]) else None
    {
      var prev := txs.Get(tx.nonce);
      if prev.Some? {
        var threshold := (100 + priceBump) * prev.value.price / 100;
        if prev.value.price >= tx.price || tx.price < threshold {
          return false, None;
        }
      }
      txs.Put(tx);
      if costcap < tx.Cost() {
        costcap := tx.Cost();
      }
      if gascap < tx.gas {
        gascap := tx.gas;
      }
      return true, prev;
    }

    method Forward(threshold: nat) returns (removed: seq<Tx>)
      requires Valid()
      modifies this, txs
      ensures Valid()
      ensures Value() == old(Value()).(items := AtLeast(old(Value()).items, threshold))
      ensures removed == Flatten(Below(old(Value()).items, threshold))
    {
      removed := txs.Forward(threshold);
    }

    /** Removes what exceeds the limits; a strict list also gives up everything above the lowest removal. */
    method Filter(costLimit: nat, gasLimit: nat) returns (removed: seq<Tx>, invalids: seq<Tx>)
      requires Valid()
      modifies this, txs
      ensures Valid()
      ensures Value() == Limited(old(Value()), costLimit, gasLimit)
      ensures Lists(removed, Overdrawn(old(Value()).items, costLimit, gasLimit))
      ensures Lists(invalids,
                    old(Value()).items - Value().items.Keys - Overdrawn(old(Value()).items, costLimit, gasLimit).Keys)
    {
      EarlyExitIsSound(Value(), costLimit, gasLimit);
      FilterPartitions(Value(), costLimit, gasLimit);
      if costcap <= costLimit && gascap <= gasLimit {
        NothingCut(txs.items, map[]);
        return [], [];
      }
      costcap, gascap := costLimit, gasLimit;
      removed, invalids := FilterSorted(txs, strict, costLimit, gasLimit);
    }

    method Cap(threshold: nat) returns (drops: seq<Tx>)
      requires Valid()
      modifies this, txs
      ensures Valid()
      ensures Value() == old(Value()).(items := Lowest(old(Value()).items, threshold))
      ensures Lists(drops, old(Value()).items - Value().items.Keys)
    {
      LowestSplits(txs.items, threshold);
      drops := txs.Cap(threshold);
    }

    /** Removes `tx` by nonce; a strict list also gives up everything above it. */
    method Remove(tx: Tx) returns (found: bool, invalids: seq<Tx>)
      requires Valid()
      modifies this, txs
      ensures Valid()
      ensures found <==> tx.nonce in old(Value()).items
      ensures Value() == old(Value()).(items := Removed(strict, old(Value()).items, tx.nonce))
      ensures Lists(invalids, old(Value()).items - Value().items.Keys - {tx.nonce})
    {
      invalids := [];
      NothingElseRemoved(txs.items, tx.nonce);
      ghost var m := txs.items;
      found := txs.Remove(tx.nonce);
      if found && strict {
        var nonce := tx.nonce;
        var above := (t: Tx) => t.nonce > nonce;
        RemoveAbove(m, nonce, above);
        invalids := txs.Filter(above);
      }
    }

    method Ready(start: nat) returns (ready: seq<Tx>)
      requires Valid()
      modifies this, txs
      ensures Valid()
      ensures ready == Flatten(Run(old(Value()).items, start))
      ensures Value() == old(Value()).(items := old(Value()).items - Run(old(Value()).items, start).Keys)
    {
      ready := txs.Ready(start);
    }

    method LastElement() returns (tx: Tx)
      requires Valid() && txs.items != map[]
      modifies txs
      ensures Valid() && Value() == old(Value())
      ensures Holds(Value().items, tx) && forall k :: k in Value().items ==> k <= tx.nonce
    {
      tx := txs.LastElement();
    }
  }

  /** The scan for the lowest removed nonce. */
  method LowestNonce(removed: seq<Tx>, ghost gone: Items) returns (lowest: nat)
    requires Lists(removed, gone) && Filed(gone) && removed != []
    ensures gone.Keys != {} && lowest == Least(gone.Keys)
  {
    lowest := removed[0].nonce;
    assert Holds(gone, removed[0]);
    for i := 1 to |removed|
      invariant lowest in gone
      invariant forall j :: 0 <= j < i ==> lowest <= removed[j].nonce
    {
      assert Holds(gone, removed[i]);
      if lowest > removed[i].nonce {
        lowest := removed[i].nonce;
      }
    }
    forall k | k in gone
      ensures lowest <= k
    {
      assert Holds(gone, gone[k]);
    }
  }

  lemma CutAbove(m: Items, gone: Items, lowest: nat, above: Tx -> bool)
    requires Filed(m) && SubItems(gone, m) && gone.Keys != {} && lowest == Least(gone.Keys)
    requires forall tx :: above(tx) <==> tx.nonce > lowest
    ensures Keep(m - gone.Keys, above) == Cut(true, m, gone)
    ensures Dropped(m - gone.Keys, above) == m - Cut(true, m, gone).Keys - gone.Keys
  {
  }

  lemma RemoveAbove(m: Items, nonce: nat, above: Tx -> bool)
    requires Filed(m) && nonce in m && forall tx :: above(tx) <==> tx.nonce > nonce
    ensures Keep(m - {nonce}, above) == Removed(true, m, nonce)
    ensures Dropped(m - {nonce}, above) == m - Removed(true, m, nonce).Keys - {nonce}
  {
  }

  lemma NothingElseRemoved(m: Items, nonce: nat)
    ensures Lists([], m - (m - {nonce}).Keys - {nonce})
    ensures nonce !in m ==> m - {nonce} == m
  {
    assert m - (m - {nonce}).Keys - {nonce} == map[];
  }

  lemma OverdrawnIsDropped(m: Items, cost: nat, gas: nat, drop: Tx -> bool)
    requires forall tx :: drop(tx) <==> Unpayable(tx, cost, gas)
    ensures Dropped(m, drop) == Overdrawn(m, cost, gas)
    ensures Keep(m, drop) == m - Overdrawn(m, cost, gas).Keys
  {
  }

  lemma NothingCut(m: Items, gone: Items)
    ensures m - (m - gone.Keys).Keys - gone.Keys == map[]
    ensures gone == map[] ==> m - gone.Keys == m
  {
  }

  /** Filter below its early exit, on the sorted map of a list. */
  method FilterSorted(txs: SortedMap, strict: bool, cost: nat, gas: nat) returns (removed: seq<Tx>, invalids: seq<Tx>)
    requires txs.Valid()
    modifies txs
    ensures txs.Valid() && txs.items == Filtered(strict, old(txs.items), cost, gas)
    ensures Lists(removed, Overdrawn(old(txs.items), cost, gas))
    ensures Lists(invalids, old(txs.items) - txs.items.Keys - Overdrawn(old(txs.items), cost, gas).Keys)
  {
    ghost var m := txs.items;
    ghost var gone := Overdrawn(m, cost, gas);
    var drop := (tx: Tx) => Unpayable(tx, cost, gas);
    OverdrawnIsDropped(m, cost, gas, drop);
    NothingCut(m, gone);
    removed := txs.Filter(drop);
    invalids := [];
    if |removed| == 0 {
      assert gone == map[];
      return;
    }
    if strict {
      var lowest := LowestNonce(removed, gone);
      var above := (tx: Tx) => tx.nonce > lowest;
      CutAbove(m, gone, lowest, above);
      invalids := txs.FilterItems(above);
    }
    txs.Reheap();
  }

}
