/** The nonce-sorted transaction map: a hash map, a nonce heap over its keys and a lazily built
    sorted view. */
module SortedMaps {
  import opened Options
  import opened Transactions
  import Heaps

  function NonceLe(a: nat, b: nat): bool {
    a <= b
  }

  function TxNonceLe(a: Tx, b: Tx): bool {
    a.nonce <= b.nonce
  }

  /** `index` holds each key of `m` exactly once. */
  ghost predicate Indexes(index: seq<nat>, m: Items) {
    multiset(index) == multiset(m.Keys)
  }

  lemma TwiceInside<T>(s: seq<T>, i: nat, j: nat)
    requires i < j < |s| && s[i] == s[j]
    ensures multiset(s)[s[i]] >= 2
  {
    assert s == s[..i] + [s[i]] + s[i + 1..j] + [s[j]] + s[j + 1..];
  }

  lemma IndexFacts(index: seq<nat>, m: Items)
    requires Indexes(index, m)
    ensures |index| == |m|
    ensures forall k :: k in index <==> k in m
    ensures forall i, j :: 0 <= i < j < |index| ==> index[i] != index[j]
  {
    assert |multiset(index)| == |index|;
    assert |multiset(m.Keys)| == |m.Keys|;
    forall k
      ensures k in index <==> k in m
    {
      assert k in index <==> k in multiset(index);
      assert k in m.Keys <==> k in multiset(m.Keys);
    }
    forall i, j | 0 <= i < j < |index|
      ensures index[i] != index[j]
    {
      if index[i] == index[j] {
        TwiceInside(index, i, j);
      }
    }
  }

  lemma DropKey(index: seq<nat>, rest: seq<nat>, m: Items, k: nat)
    requires Indexes(index, m) && k in m
    requires multiset(index) == multiset(rest)[k := multiset(rest)[k] + 1]
    ensures Indexes(rest, m - {k})
  {
    var m' := m - {k};
    assert m.Keys == m'.Keys + {k};
    forall j: nat
      ensures multiset(rest)[j] == multiset(m'.Keys)[j]
    {
      assert multiset(index)[j] == multiset(m.Keys)[j];
    }
  }

  /** The sorted view, if present, is the entries of `m` in nonce order. */
  ghost predicate CacheFits(cache: Option<seq<Tx>>, m: Items) {
    cache.Some? ==> cache.value == Flatten(m)
  }

  lemma RootIsKeyLeast(index: seq<nat>, m: Items)
    requires Indexes(index, m) && Heaps.IsHeap(index, NonceLe) && index != []
    ensures m.Keys != {} && Least(m.Keys) == index[0]
  {
    IndexFacts(index, m);
    assert index[0] in index;
    var k := Least(m.Keys);
    var i :| 0 <= i < |index| && index[i] == k;
    Heaps.RootIsLeast(index, NonceLe, i);
  }

  lemma LastIsGreatest(front: seq<nat>, m: Items)
    requires front != [] && Heaps.SortedBy(front, NonceLe) && Indexes(front, m)
    ensures m.Keys != {} && Greatest(m.Keys) == front[|front| - 1]
  {
    IndexFacts(front, m);
    var top := front[|front| - 1];
    assert top in front;
    var g := Greatest(m.Keys);
    var i :| 0 <= i < |front| && front[i] == g;
    assert i < |front| - 1 ==> NonceLe(front[i], top);
  }

  /** The last of the first `n` entries of a sorted index is their greatest key; the others index the rest. */
  lemma TopIsGreatest(index: seq<nat>, n: nat, m: Items)
    requires 0 < n <= |index| && Heaps.SortedBy(index, NonceLe) && Indexes(index[..n], m)
    ensures |m| == n && m.Keys != {} && Greatest(m.Keys) == index[n - 1]
    ensures Indexes(index[..n - 1], m - {index[n - 1]})
  {
    var front, rest, top := index[..n], index[..n - 1], index[n - 1];
    IndexFacts(front, m);
    LastIsGreatest(front, m);
    assert front == rest + [top];
    assert multiset(front) == multiset(rest) + multiset{top};
    DropKey(front, rest, m, top);
  }

  lemma ForwardedCache(m: Items, n: nat)
    requires Filed(m)
    ensures Flatten(m) == Flatten(Below(m, n)) + Flatten(AtLeast(m, n))
  {
    assert m == Below(m, n) + AtLeast(m, n);
    FlattenJoins(Below(m, n), AtLeast(m, n), m);
  }

  lemma LowestIsFront(m: Items, n: nat)
    requires Filed(m)
    ensures Flatten(m) == Flatten(Lowest(m, n)) + Flatten(m - Lowest(m, n).Keys)
  {
    var kept := Lowest(m, n);
    LowestSplits(m, n);
    assert m == kept + (m - kept.Keys);
    FlattenJoins(kept, m - kept.Keys, m);
  }

  lemma CappedCache(sorted: seq<Tx>, m: Items, n: nat, drops: seq<Tx>)
    requires Filed(m) && sorted == Flatten(m) && Lists(drops, m - Lowest(m, n).Keys)
    ensures |drops| <= |sorted| && sorted[..|sorted| - |drops|] == Flatten(Lowest(m, n))
  {
    var gone := m - Lowest(m, n).Keys;
    assert |Flatten(gone)| == |drops| by {
      FlattenLists(gone);
    }
    LowestIsFront(m, n);
  }

  lemma NothingDropped(m: Items)
    ensures Lists([], m - m.Keys)
  {
    assert m - m.Keys == map[];
  }

  lemma LowestIsFiled(m: Items, n: nat)
    requires Filed(m)
    ensures Filed(Lowest(m, n))
  {
    LowestSplits(m, n);
  }

  /** Cuts the dropped transactions off the back of a sorted view, if there is one. */
  method ShiftBack(cache: Option<seq<Tx>>, ghost m: Items, ghost n: nat, drops: seq<Tx>)
    returns (shifted: Option<seq<Tx>>)
    requires Filed(m) && CacheFits(cache, m) && Lists(drops, m - Lowest(m, n).Keys)
    ensures CacheFits(shifted, Lowest(m, n))
  {
    shifted := None;
    if cache.Some? {
      CappedCache(cache.value, m, n, drops);
      shifted := Some(cache.value[..|cache.value| - |drops|]);
    }
  }

  lemma SortingFlattens(s: seq<Tx>, sorted: seq<Tx>, m: Items)
    requires Filed(m) && Lists(s, m)
    requires Heaps.SortedBy(sorted, TxNonceLe) && multiset(s) == multiset(sorted) && |s| == |sorted|
    ensures sorted == Flatten(m)
  {
    forall tx
      ensures tx in sorted <==> Holds(m, tx)
    {
      assert tx in sorted <==> tx in multiset(sorted);
      assert tx in s <==> tx in multiset(s);
    }
    DistinctNonces(sorted, m);
    forall i, j | 0 <= i < j < |sorted|
      ensures sorted[i].nonce < sorted[j].nonce
    {
      assert TxNonceLe(sorted[i], sorted[j]);
    }
    FlattenIsUnique(sorted, m);
  }

  lemma ForwardDone(index: seq<nat>, m: Items, bound: nat, threshold: nat)
    requires bound <= threshold && Indexes(index, AtLeast(m, bound)) && Heaps.IsHeap(index, NonceLe)
    requires index == [] || threshold <= index[0]
    ensures AtLeast(m, bound) == AtLeast(m, threshold) && Below(m, bound) == Below(m, threshold)
  {
    if index == [] {
      IndexFacts(index, AtLeast(m, bound));
    } else {
      RootIsKeyLeast(index, AtLeast(m, bound));
    }
    assert forall k :: k in m && bound <= k ==> k in AtLeast(m, bound);
    SplitsAgree(m, bound, threshold);
  }

  lemma DropOne(m: Items, part: Items, top: nat, drops: seq<Tx>)
    requires Filed(m) && SubItems(part, m) && top in part && Lists(drops, m - part.Keys)
    ensures SubItems(part - {top}, m) && Lists(drops + [part[top]], m - (part - {top}).Keys)
  {
    ListsOneMore(drops, m - part.Keys, part[top]);
    assert m - (part - {top}).Keys == (m - part.Keys)[top := part[top]];
  }

  /** Pops the lowest nonce off the index. */
  method PopLeast(index0: seq<nat>, ghost items: Items) returns (index: seq<nat>, nonce: nat)
    requires Indexes(index0, items) && Heaps.IsHeap(index0, NonceLe) && index0 != []
    ensures nonce == index0[0] && |index| == |index0| - 1
    ensures items.Keys != {} && nonce == Least(items.Keys)
    ensures Indexes(index, items - {nonce}) && Heaps.IsHeap(index, NonceLe)
  {
    RootIsKeyLeast(index0, items);
    index, nonce := Heaps.Pop(index0, NonceLe);
    DropKey(index0, index, items, nonce);
  }

  /** The popping loop of Forward. */
  method PopBelow(index0: seq<nat>, items0: Items, threshold: nat)
    returns (index: seq<nat>, items: Items, removed: seq<Tx>)
    requires Filed(items0) && Indexes(index0, items0) && Heaps.IsHeap(index0, NonceLe)
    ensures Indexes(index, items) && Heaps.IsHeap(index, NonceLe)
    ensures items == AtLeast(items0, threshold) && removed == Flatten(Below(items0, threshold))
  {
    index, items, removed := index0, items0, [];
    ghost var bound: nat := 0;
    assert AtLeast(items0, 0) == items0 && Below(items0, 0) == map[];
    while |index| > 0 && index[0] < threshold
      invariant bound <= threshold
      invariant items == AtLeast(items0, bound) && removed == Flatten(Below(items0, bound))
      invariant Indexes(index, items) && Heaps.IsHeap(index, NonceLe)
      decreases |index|
    {
      var nonce;
      index, nonce := PopLeast(index, items);
      removed := removed + [items[nonce]];
      MoveLowest(items0, bound, nonce);
      items, bound := items - {nonce}, nonce + 1;
    }
    ForwardDone(index, items0, bound, threshold);
  }

  lemma DropStep(items0: Items, keys: set<nat>, nonce: nat, drop: Tx -> bool, gone: Items, removed: seq<Tx>)
    requires Filed(items0) && keys <= items0.Keys && nonce in keys
    requires gone == Dropped(items0 - keys, drop) && Lists(removed, gone)
    ensures var tx := items0[nonce];
      if drop(tx) then
        && Dropped(items0 - (keys - {nonce}), drop) == gone[nonce := tx] && Lists(removed + [tx], gone[nonce := tx])
        && items0 - gone.Keys - {nonce} == items0 - gone[nonce := tx].Keys
      else
        Dropped(items0 - (keys - {nonce}), drop) == gone
  {
    VisitOne(items0, keys, nonce, drop);
    var tx := items0[nonce];
    if drop(tx) {
      ListsOneMore(removed, gone, tx);
      assert gone[nonce := tx].Keys == gone.Keys + {nonce};
    }
  }

  /** The scan of filter over the hash map. */
  method DropMatching(items0: Items, drop: Tx -> bool) returns (items: Items, removed: seq<Tx>)
    requires Filed(items0)
    ensures items == Keep(items0, drop) && Lists(removed, Dropped(items0, drop))
  {
    items, removed := items0, [];
    var keys := items.Keys;
    ghost var gone: Items := map[];
    assert items0 - keys == map[];
    while keys != {}
      invariant keys <= items0.Keys
      invariant gone == Dropped(items0 - keys, drop) && items == items0 - gone.Keys
      invariant Lists(removed, gone)
      decreases keys
    {
      var nonce :| nonce in keys;
      var tx := items0[nonce];
      DropStep(items0, keys, nonce, drop, gone, removed);
      keys := keys - {nonce};
      if drop(tx) {
        removed, gone := removed + [tx], gone[nonce := tx];
        items := items - {nonce};
      }
    }
    KeepIsTheRest(items0, drop);
  }

  /** One entry fewer. */
  lemma {:induction false} LowestStep(m: Items, n: nat)
    requires 0 < n <= |m|
    ensures Lowest(m, n).Keys != {}
    ensures Lowest(m, n - 1) == Lowest(m, n) - {Greatest(Lowest(m, n).Keys)}
    decreases |m|
  {
    assert m.Keys != {};
    var top := Greatest(m.Keys);
    assert m.Keys == (m - {top}).Keys + {top};
    if n < |m| {
      LowestStep(m - {top}, n);
    } else {
      assert Lowest(m - {top}, n - 1) == m - {top};
    }
  }

  /** The dropping loop with `size` entries left. */
  ghost predicate Dropping(index: seq<nat>, items0: Items, items: Items, drops: seq<Tx>, size: nat) {
    && size <= |index| == |items0| && Indexes(index[..size], items) && items == Lowest(items0, size)
    && Lists(drops, items0 - items.Keys)
  }

  lemma DroppingStarts(index: seq<nat>, items0: Items)
    requires Indexes(index, items0) && |index| == |items0|
    ensures Dropping(index, items0, items0, [], |items0|)
  {
    assert index[..|items0|] == index;
    assert items0 - items0.Keys == map[];
  }

  lemma DropTop(index: seq<nat>, items0: Items, items: Items, drops: seq<Tx>, size: nat, less: nat)
    requires Dropping(index, items0, items, drops, size) && size == less + 1
    requires Filed(items0) && Heaps.SortedBy(index, NonceLe)
    ensures index[less] in items
    ensures Dropping(index, items0, items - {index[less]}, drops + [items[index[less]]], less)
  {
    TopIsGreatest(index, size, items);
    LowestStep(items0, size);
    LowestSplits(items0, size);
    DropOne(items0, items, index[less], drops);
  }

  /** The dropping loop of Cap, over a sorted index. */
  method DropSorted(index: seq<nat>, items0: Items, threshold: nat) returns (items: Items, drops: seq<Tx>)
    requires Filed(items0) && Indexes(index, items0) && Heaps.SortedBy(index, NonceLe)
    requires threshold <= |index| == |items0|
    ensures Dropping(index, items0, items, drops, threshold)
  {
    items, drops := items0, [];
    var size: nat := |items|;
    DroppingStarts(index, items0);
    while size > threshold
      invariant threshold <= size <= |index|
      invariant Dropping(index, items0, items, drops, size)
      decreases size
    {
      var less: nat := size - 1;
      DropTop(index, items0, items, drops, size, less);
      var top: nat := index[less];
      drops, items, size := drops + [items[top]], items - {top}, less;
    }
  }

  /** Cap above its limit: sort, drop from the back, make the rest a heap again. */
  method DropHighest(index0: seq<nat>, items0: Items, threshold: nat)
    returns (index: seq<nat>, items: Items, drops: seq<Tx>)
    requires Filed(items0) && Indexes(index0, items0) && threshold < |items0|
    ensures Indexes(index, items) && Heaps.IsHeap(index, NonceLe)
    ensures items == Lowest(items0, threshold) && Lists(drops, items0 - items.Keys)
  {
    index := Heaps.Sort(index0, NonceLe);
    assert |index| == |items0| by {
      IndexFacts(index, items0);
    }
    items, drops := DropSorted(index, items0, threshold);
    index := Heaps.Init(index[..threshold], NonceLe);
  }

  /** The popping loop of Ready, from the lowest nonce. */
  method PopRun(index0: seq<nat>, items0: Items) returns (index: seq<nat>, items: Items, ready: seq<Tx>)
    requires Filed(items0) && Indexes(index0, items0) && Heaps.IsHeap(index0, NonceLe)
    requires index0 != []
    ensures Indexes(index, items) && Heaps.IsHeap(index, NonceLe)
    ensures ready == Flatten(Run(items0, index0[0])) && items == items0 - Run(items0, index0[0]).Keys
  {
    index, items, ready := index0, items0, [];
    RootIsKeyLeast(index, items);
    ghost var lo: nat := index[0];
    var next: nat := index[0];
    assert AtLeast(items0, lo) == items0 && Below(items0, lo) == map[];
    while |index| > 0 && index[0] == next
      invariant lo <= next && forall k :: lo <= k < next ==> k in items0
      invariant items == AtLeast(items0, next) && ready == Flatten(Below(items0, next))
      invariant Indexes(index, items) && Heaps.IsHeap(index, NonceLe)
      decreases |index|
    {
      var nonce;
      index, nonce := PopLeast(index, items);
      ready := ready + [items[next]];
      MoveLowest(items0, next, next);
      items, next := items - {next}, next + 1;
    }
    NextIsMissing(index, items, next);
    RunEndIs(items0.Keys, lo, next);
  }

  lemma NextIsMissing(index: seq<nat>, m: Items, next: nat)
    requires Indexes(index, m) && Heaps.IsHeap(index, NonceLe)
    requires index == [] || index[0] != next
    requires forall k :: k in m ==> next <= k
    ensures next !in m
  {
    if index == [] {
      IndexFacts(index, m);
    } else {
      RootIsKeyLeast(index, m);
    }
  }

  class SortedMap {
    var items: Items
    var index: seq<nat>
    var cache: Option<seq<Tx>>

    ghost predicate Valid()
      reads this
    {
      Filed(items) && Indexes(index, items) && Heaps.IsHeap(index, NonceLe) && CacheFits(cache, items)
    }

    constructor ()
      ensures Valid() && items == map[]
    {
      items, index, cache := map[], [], None;
    }

    method Get(nonce: nat) returns (tx: Option<Tx>)
      ensures tx == if nonce in items then Some(items[nonce]) else None
    {
      tx := if nonce in items then Some(items[nonce]) else None;
    }

    method Put(tx: Tx)
      requires Valid()
      modifies this
      ensures Valid() && items == old(items)[tx.nonce := tx] && cache == None
    {
      if tx.nonce !in items {
        ghost var before: seq<nat> := index;
        index := Heaps.Push(index, NonceLe, tx.nonce);
        var after := items[tx.nonce := tx];
        assert after.Keys == items.Keys + {tx.nonce};
        forall j: nat
          ensures multiset(index)[j] == multiset(after.Keys)[j]
        {
          assert multiset(before)[j] == multiset(items.Keys)[j];
        }
      } else {
        assert items[tx.nonce := tx].Keys == items.Keys;
      }
      items, cache := items[tx.nonce := tx], None;
    }

    /** Drops every nonce below `threshold`, lowest first. */
    method Forward(threshold: nat) returns (removed: seq<Tx>)
      requires Valid()
      modifies this
      ensures Valid() && items == AtLeast(old(items), threshold)
      ensures removed == Flatten(Below(old(items), threshold))
    {
      ghost var all := items;
      index, items, removed := PopBelow(index, items, threshold);
      if cache.Some? {
        ForwardedCache(all, threshold);
        cache := Some(cache.value[|removed|..]);
      }
    }

    /** The unsorted removal: leaves the heap and the sorted view to the caller. */
    method FilterItems(drop: Tx -> bool) returns (removed: seq<Tx>)
      requires Filed(items)
      modifies this
      ensures items == Keep(old(items), drop) && index == old(index)
      ensures Lists(removed, Dropped(old(items), drop))
      ensures cache == if removed == [] then old(cache) else None
    {
      items, removed := DropMatching(items, drop);
      if |removed| > 0 {
        cache := None;
      }
    }

    method Reheap()
      requires Filed(items)
      modifies this
      ensures Valid() && items == old(items)
    {
      index := [];
      var keys := items.Keys;
      while keys != {}
        invariant keys <= items.Keys && items == old(items)
        invariant multiset(index) + multiset(keys) == multiset(items.Keys)
        decreases keys
      {
        var nonce :| nonce in keys;
        assert multiset(keys) == multiset(keys - {nonce}) + multiset{nonce};
        index, keys := index + [nonce], keys - {nonce};
      }
      index := Heaps.Init(index, NonceLe);
      cache := None;
    }

    method Filter(drop: Tx -> bool) returns (removed: seq<Tx>)
      requires Valid()
      modifies this
      ensures Valid() && items == Keep(old(items), drop)
      ensures Lists(removed, Dropped(old(items), drop))
    {
      ghost var all := items;
      removed := FilterItems(drop);
      if |removed| > 0 {
        Reheap();
      } else {
        assert all.Keys == items.Keys + Dropped(all, drop).Keys;
        assert Dropped(all, drop) == map[];
        assert items == all;
      }
    }

    /** Drops the highest nonces until at most `threshold` entries remain. */
    method Cap(threshold: nat) returns (drops: seq<Tx>)
      requires Valid()
      modifies this
      ensures Valid() && items == Lowest(old(items), threshold)
      ensures Lists(drops, old(items) - items.Keys)
    {
      drops := [];
      if |items| <= threshold {
        NothingDropped(items);
      } else {
        ghost var all := items;
        index, items, drops := DropHighest(index, items, threshold);
        LowestIsFiled(all, threshold);
        cache := ShiftBack(cache, all, threshold, drops);
      }
    }

    method Remove(nonce: nat) returns (found: bool)
      requires Valid()
      modifies this
      ensures Valid() && items == old(items) - {nonce}
      ensures found <==> nonce in old(items)
      ensures !found ==> cache == old(cache)
    {
      if nonce !in items {
        assert items == items - {nonce};
        return false;
      }
      IndexFacts(index, items);
      var i := 0;
      while i < |index| && index[i] != nonce
        invariant 0 <= i <= |index|
        invariant nonce !in index[..i]
      {
        i := i + 1;
      }
      assert index[..|index|] == index;
      ghost var before: seq<nat> := index;
      index := Heaps.Remove(index, NonceLe, i);
      DropKey(before, index, items, nonce);
      items, cache := items - {nonce}, None;
      return true;
    }

    /** Takes the maximal run of consecutive nonces from the lowest one, if that is at most `start`. */
    method Ready(start: nat) returns (ready: seq<Tx>)
      requires Valid()
      modifies this
      ensures Valid()
      ensures ready == Flatten(Run(old(items), start))
      ensures items == old(items) - Run(old(items), start).Keys
    {
      IndexFacts(index, items);
      if |index| == 0 || index[0] > start {
        assert items.Keys != {} ==> Least(items.Keys) == index[0] by {
          if items.Keys != {} {
            RootIsKeyLeast(index, items);
          }
        }
        assert items == items - Run(items, start).Keys;
        return [];
      }
      RootIsKeyLeast(index, items);
      index, items, ready := PopRun(index, items);
      cache := None;
    }

    method FlattenCached() returns (txs: seq<Tx>)
      requires Valid()
      modifies this
      ensures Valid() && items == old(items) && txs == Flatten(items) && cache == Some(txs)
    {
      if cache.None? {
        var keys := items.Keys;
        var s := [];
        while keys != {}
          invariant keys <= items.Keys && items == old(items) && index == old(index) && cache == old(cache)
          invariant forall tx :: tx in s <==> Holds(items, tx) && tx.nonce !in keys
          invariant |s| + |keys| == |items|
          decreases keys
        {
          var nonce :| nonce in keys;
          s, keys := s + [items[nonce]], keys - {nonce};
        }
        var sorted := Heaps.Sort(s, TxNonceLe);
        SortingFlattens(s, sorted, items);
        cache := Some(sorted);
      }
      txs := cache.value;
    }

    method FlattenCopy() returns (txs: seq<Tx>)
      requires Valid()
      modifies this
      ensures Valid() && items == old(items) && txs == Flatten(items)
    {
      txs := FlattenCached();
    }

    method LastElement() returns (tx: Tx)
      requires Valid() && items != map[]
      modifies this
      ensures Valid() && items == old(items)
      ensures Holds(items, tx) && forall k :: k in items ==> k <= tx.nonce
    {
      var txs := FlattenCached();
      FlattenLists(items);
      tx := txs[|txs| - 1];
      forall k | k in items
        ensures k <= tx.nonce
      {
        assert Holds(items, items[k]);
        var i :| 0 <= i < |txs| && txs[i] == items[k];
      }
    }
  }
}
