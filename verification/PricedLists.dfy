/** The lookup of all pooled transactions and the lazily cleaned price heap over its remote part. */
module PricedLists {
  import opened Transactions
  import Heaps

  const TX_SLOT_SIZE := 32 * 1024

  function NumSlots(tx: Tx): nat {
    (tx.size + TX_SLOT_SIZE - 1) / TX_SLOT_SIZE
  }

  ghost function SlotsOf(s: set<Tx>): nat {
    if s == {} then 0 else var tx :| tx in s; NumSlots(tx) + SlotsOf(s - {tx})
  }

  /** The sum does not depend on the order in which transactions are picked. */
  lemma {:induction false} SlotsAdd(s: set<Tx>, tx: Tx)
    requires tx !in s
    ensures SlotsOf(s + {tx}) == SlotsOf(s) + NumSlots(tx)
    decreases |s|
  {
    var t := s + {tx};
    var pick :| pick in t && SlotsOf(t) == NumSlots(pick) + SlotsOf(t - {pick});
    if pick == tx {
      assert t - {pick} == s;
    } else {
      var rest := s - {pick};
      assert t - {pick} == rest + {tx};
      SlotsAdd(rest, tx);
      assert s == rest + {pick};
      SlotsAdd(rest, pick);
    }
  }

  /** What is taken away frees its own slots. */
  lemma {:induction false} SlotsMinus(s: set<Tx>, gone: set<Tx>)
    requires gone <= s
    ensures SlotsOf(s - gone) + SlotsOf(gone) == SlotsOf(s)
    decreases |gone|
  {
    if gone == {} {
      assert s - gone == s;
    } else {
      var tx :| tx in gone;
      SlotsMinus(s - {tx}, gone - {tx});
      assert s - {tx} - (gone - {tx}) == s - gone;
      SlotsAdd(s - {tx}, tx);
      SlotsAdd(gone - {tx}, tx);
      assert s == s - {tx} + {tx} && gone == gone - {tx} + {tx};
    }
  }

  lemma {:induction false} SlotsAtLeastCount(s: set<Tx>)
    requires forall tx :: tx in s ==> tx.size > 0
    ensures |s| <= SlotsOf(s)
    decreases |s|
  {
    if s != {} {
      var tx :| tx in s;
      SlotsAtLeastCount(s - {tx});
      SlotsAdd(s - {tx}, tx);
      assert s == (s - {tx}) + {tx};
    }
  }

  class TxLookup {
    var slots: int
    var locals: set<Tx>
    var remotes: set<Tx>

    function Txs(): set<Tx>
      reads this
    {
      locals + remotes
    }

    ghost predicate Valid()
      reads this
    {
      locals !! remotes && slots == SlotsOf(Txs())
    }

    constructor ()
      ensures Valid() && locals == {} && remotes == {}
    {
      slots, locals, remotes := 0, {}, {};
    }

    method Get(tx: Tx) returns (found: bool)
      ensures found <==> tx in Txs()
    {
      found := tx in locals || tx in remotes;
    }

    method Count() returns (n: nat)
      requires Valid()
      ensures n == |Txs()|
    {
      n := |locals| + |remotes|;
    }

    /** Adds a transaction. One that is in already has its slots counted twice. */
    method Add(tx: Tx, local: bool)
      requires Valid()
      modifies this
      ensures Txs() == old(Txs()) + {tx} && slots == old(slots) + NumSlots(tx)
      ensures locals == if local then old(locals) + {tx} else old(locals)
      ensures remotes == if local then old(remotes) else old(remotes) + {tx}
      ensures Valid() <==> tx !in old(Txs()) || (NumSlots(tx) == 0 && (local <==> tx in old(locals)))
    {
      if tx !in Txs() {
        SlotsAdd(Txs(), tx);
      }
      slots := slots + NumSlots(tx);
      ghost var before := Txs();
      if local {
        locals := locals + {tx};
      } else {
        remotes := remotes + {tx};
      }
      assert Txs() == before + {tx};
      assert tx in before ==> Txs() == before;
    }

    /** Removing an unknown transaction only logs an error. */
    method Remove(tx: Tx)
      requires Valid()
      modifies this
      ensures Valid() && locals == old(locals) - {tx} && remotes == old(remotes) - {tx}
      ensures Txs() == old(Txs()) - {tx}
    {
      if tx !in locals && tx !in remotes {
        return;
      }
      SlotsAdd(Txs() - {tx}, tx);
      assert Txs() == (Txs() - {tx}) + {tx};
      slots := slots - NumSlots(tx);
      ghost var rest := Txs() - {tx};
      locals, remotes := locals - {tx}, remotes - {tx};
      assert Txs() == rest;
    }

    /** Moves the remote transactions of local accounts over. */
    method RemoteToLocals(accounts: set<Addr>) returns (migrated: nat)
      requires Valid()
      modifies this
      ensures Valid() && Txs() == old(Txs())
      ensures remotes == set tx | tx in old(remotes) && tx.from !in accounts
      ensures migrated == |old(remotes)| - |remotes|
    {
      var moving := set tx | tx in remotes && tx.from in accounts;
      var staying := remotes - moving;
      assert remotes == staying + moving;
      ghost var before := Txs();
      migrated := |moving|;
      locals, remotes := locals + moving, staying;
      assert Txs() == before;
    }
  }

  /** Cheaper first; at equal price the higher nonce first. */
  predicate PriceLe(a: Tx, b: Tx) {
    a.price < b.price || (a.price == b.price && b.nonce <= a.nonce)
  }

  lemma PoppedMembers(before: seq<Tx>, after: seq<Tx>, x: Tx)
    requires multiset(before) == multiset(after)[x := multiset(after)[x] + 1]
    ensures forall tx :: tx in before <==> tx in after || tx == x
    ensures multiset(before) == multiset(after) + multiset{x}
  {
    forall tx
      ensures tx in before <==> tx in after || tx == x
    {
      assert tx in before <==> tx in multiset(before);
      assert tx in after <==> tx in multiset(after);
    }
  }

  lemma SameMembers(a: seq<Tx>, b: seq<Tx>)
    requires multiset(a) == multiset(b)
    ensures forall tx :: tx in a <==> tx in b
  {
    forall tx
      ensures tx in a <==> tx in b
    {
      assert tx in a <==> tx in multiset(a);
      assert tx in b <==> tx in multiset(b);
    }
  }

  function SlotSum(s: seq<Tx>): nat {
    if s == [] then 0 else SlotSum(s[..|s| - 1]) + NumSlots(s[|s| - 1])
  }

  /** The slots of the heap entries that are live; an entry held twice counts twice. */
  function LiveSum(s: seq<Tx>, live: set<Tx>): nat {
    if s == [] then 0 else
      LiveSum(s[..|s| - 1], live) + if s[|s| - 1] in live then NumSlots(s[|s| - 1]) else 0
  }

  lemma {:induction false} LiveSumJoins(s: seq<Tx>, t: seq<Tx>, live: set<Tx>)
    ensures LiveSum(s + t, live) == LiveSum(s, live) + LiveSum(t, live)
  {
    if t == [] {
      assert s + t == s;
    } else {
      LiveSumJoins(s, t[..|t| - 1], live);
      assert (s + t)[..|s + t| - 1] == s + t[..|t| - 1];
    }
  }

  lemma {:induction false} LiveSumPermuted(s: seq<Tx>, t: seq<Tx>, live: set<Tx>)
    requires multiset(s) == multiset(t)
    ensures LiveSum(s, live) == LiveSum(t, live)
  {
    if s == [] {
      assert |multiset(t)| == 0 && t == [];
    } else {
      var n := |s| - 1;
      assert s[n] in multiset(t);
      var i :| 0 <= i < |t| && t[i] == s[n];
      TakenOut(t, i);
      TakenOut(s, n);
      assert s[..n] + s[n + 1..] == s[..n];
      LiveSumPermuted(s[..n], t[..i] + t[i + 1..], live);
      LiveSumWithout(t, i, live);
    }
  }

  lemma LiveSumWithout(t: seq<Tx>, i: nat, live: set<Tx>)
    requires i < |t|
    ensures LiveSum(t, live) == LiveSum(t[..i] + t[i + 1..], live) + if t[i] in live then NumSlots(t[i]) else 0
  {
    LiveSumJoins(t[..i], t[i + 1..], live);
    LiveSumJoins(t[..i + 1], t[i + 1..], live);
    assert t[..i + 1] + t[i + 1..] == t && t[..i + 1][..i] == t[..i];
  }

  /** A live entry weighs in. */
  lemma {:induction false} LiveSumCounts(s: seq<Tx>, live: set<Tx>, tx: Tx)
    requires tx in s && tx in live
    ensures NumSlots(tx) <= LiveSum(s, live)
  {
    var n := |s| - 1;
    if s[n] != tx {
      assert tx in s[..n];
      LiveSumCounts(s[..n], live, tx);
    }
  }

  /** The live entries of a heap that covers a set weigh at least as much as the set. */
  lemma {:induction false} CoveredSlots(s: seq<Tx>, live: set<Tx>)
    requires forall tx :: tx in live ==> tx in s
    ensures SlotsOf(live) <= LiveSum(s, live)
    decreases |live|
  {
    if live != {} {
      var tx :| tx in live;
      CoveredSlots(s, live - {tx});
      SlotsAdd(live - {tx}, tx);
      assert live == (live - {tx}) + {tx};
      LiveSumGains(s, live - {tx}, tx);
    }
  }

  lemma {:induction false} LiveSumGains(s: seq<Tx>, live: set<Tx>, tx: Tx)
    requires tx !in live
    ensures LiveSum(s, live + {tx}) >= LiveSum(s, live) + if tx in s then NumSlots(tx) else 0
  {
    if s != [] {
      LiveSumGains(s[..|s| - 1], live, tx);
      assert s == s[..|s| - 1] + [s[|s| - 1]];
    }
  }

  lemma TakenOut(t: seq<Tx>, i: nat)
    requires i < |t|
    ensures multiset(t[..i] + t[i + 1..]) == multiset(t) - multiset{t[i]}
  {
    assert t == t[..i] + ([t[i]] + t[i + 1..]);
    assert multiset(t) == multiset(t[..i]) + (multiset{t[i]} + multiset(t[i + 1..]));
  }

  /** Popping one entry. */
  lemma PoppedSum(before: seq<Tx>, after: seq<Tx>, x: Tx, live: set<Tx>)
    requires multiset(before) == multiset(after) + multiset{x}
    ensures LiveSum(before, live) == LiveSum(after, live) + if x in live then NumSlots(x) else 0
  {
    LiveSumPermuted(before, after + [x], live);
    assert (after + [x])[..|after|] == after;
  }

  ghost predicate NoTwice(s: seq<Tx>) {
    forall tx :: multiset(s)[tx] <= 1
  }

  /** Taken as a set, transactions fill at most the slots of their sequence, and all of them if none comes twice. */
  lemma {:induction false} SetSlots(s: seq<Tx>)
    ensures SlotsOf(AsSet(s)) <= SlotSum(s)
    ensures NoTwice(s) ==> SlotsOf(AsSet(s)) == SlotSum(s)
    ensures (forall tx :: tx in s ==> tx.size > 0) && SlotsOf(AsSet(s)) == SlotSum(s) ==> NoTwice(s)
  {
    if s != [] {
      var n := |s| - 1;
      var rest, x := s[..n], s[n];
      assert s == rest + [x];
      SetSlots(rest);
      SetGrows(s, rest, x);
      if x !in rest {
        SlotsAdd(AsSet(rest), x);
      }
    }
  }

  lemma SetGrows(s: seq<Tx>, rest: seq<Tx>, x: Tx)
    requires s == rest + [x]
    ensures AsSet(s) == AsSet(rest) + {x}
    ensures x in rest ==> !NoTwice(s) && AsSet(s) == AsSet(rest)
    ensures x !in rest ==> (NoTwice(s) <==> NoTwice(rest))
  {
    assert multiset(s) == multiset(rest) + multiset{x};
    assert x in rest <==> multiset(rest)[x] > 0;
    if x in rest {
      assert multiset(s)[x] >= 2;
    } else {
      forall tx
        ensures multiset(s)[tx] <= 1 <==> multiset(rest)[tx] <= 1
      {
      }
    }
  }

  /** Nothing live was lost from the heap except what is in `drop`, and nothing was added. */
  ghost predicate OnlyLost(before: seq<Tx>, after: seq<Tx>, drop: seq<Tx>, live: set<Tx>) {
    && (forall tx :: tx in before && tx in live ==> tx in after || tx in drop)
    && (forall tx :: tx in after || tx in drop ==> tx in before)
  }

  /** Two heaps with the same live entries, each as often. */
  ghost predicate SameLive(h: seq<Tx>, h0: seq<Tx>, live: set<Tx>) {
    forall t :: t in live ==> multiset(h)[t] == multiset(h0)[t]
  }

  /** The first live entries of a heap in price order: they are sorted, and no live entry that is left is below one of
      them. */
  ghost predicate FirstLive(drop: seq<Tx>, heap: seq<Tx>, live: set<Tx>) {
    && Heaps.SortedBy(drop, PriceLe) && (forall t :: t in drop ==> t in live)
    && (forall t :: t in live ==> multiset(drop)[t] <= multiset(heap)[t])
    && forall d, t :: d in drop && t in live && multiset(drop)[t] < multiset(heap)[t] ==> PriceLe(d, t)
  }

  /** As many of them as it takes to cover `slots` slots or, if that is forced, all there are. */
  ghost predicate Prefix(drop: seq<Tx>, heap: seq<Tx>, live: set<Tx>, slots: int, force: bool) {
    && FirstLive(drop, heap, live) && (drop != [] ==> SlotSum(drop[..|drop| - 1]) < slots)
    && (SlotSum(drop) < slots ==> force && SameLive(drop, heap, live))
  }

  /** What is dropped to free `slots` slots: the transactions of such a prefix. */
  ghost predicate DroppedBy(dropped: set<Tx>, heap: seq<Tx>, live: set<Tx>, slots: int, force: bool) {
    exists drop :: dropped == AsSet(drop) && Prefix(drop, heap, live, slots, force)
  }

  /** The slots of entries that have come before in the sequence. */
  function Repeated(s: seq<Tx>): nat {
    if s == [] then 0 else
      var n := |s| - 1;
      Repeated(s[..n]) + if s[n] in s[..n] then NumSlots(s[n]) else 0
  }

  /** As a set, the drops free the slots counted over the list less the repeated ones. So what such a prefix frees is
      enough exactly when it covers the slots without its repetitions. */
  lemma {:induction false} FreesLessRepeats(s: seq<Tx>, slots: int)
    ensures SlotsOf(AsSet(s)) + Repeated(s) == SlotSum(s)
    ensures slots <= SlotsOf(AsSet(s)) <==> slots + Repeated(s) <= SlotSum(s)
  {
    if s != [] {
      var n := |s| - 1;
      FreesLessRepeats(s[..n], slots);
      assert s == s[..n] + [s[n]];
      SetGrows(s, s[..n], s[n]);
      if s[n] !in s[..n] {
        SlotsAdd(AsSet(s[..n]), s[n]);
      }
    }
  }

  /** If nothing is in the heap twice, the prefix frees the slots it covers. */
  lemma OnceFrees(dropped: set<Tx>, heap: seq<Tx>, live: set<Tx>, slots: int)
    requires DroppedBy(dropped, heap, live, slots, false) && NoTwice(heap)
    ensures slots <= SlotsOf(dropped)
  {
    var drop :| dropped == AsSet(drop) && Prefix(drop, heap, live, slots, false);
    forall t
      ensures multiset(drop)[t] <= 1
    {
      assert multiset(heap)[t] <= 1;
      assert t in drop ==> t in live;
    }
    SetSlots(drop);
  }

  /** Shedding stale entries over the heap does not matter. */
  lemma SameDrops(dropped: set<Tx>, h: seq<Tx>, h0: seq<Tx>, live: set<Tx>, slots: int, force: bool)
    requires DroppedBy(dropped, h, live, slots, force) && SameLive(h, h0, live)
    ensures DroppedBy(dropped, h0, live, slots, force)
  {
    var drop :| dropped == AsSet(drop) && Prefix(drop, h, live, slots, force);
    assert Prefix(drop, h0, live, slots, force);
  }

  /** Pops stale entries off the top of the heap. */
  method Clean(h0: seq<Tx>, live: set<Tx>) returns (h: seq<Tx>, popped: nat)
    requires Heaps.IsHeap(h0, PriceLe)
    ensures Heaps.IsHeap(h, PriceLe) && OnlyLost(h0, h, [], live)
    ensures multiset(h) <= multiset(h0) && LiveSum(h, live) == LiveSum(h0, live) && SameLive(h, h0, live)
    ensures h != [] ==> h[0] in live
    ensures |h| + popped == |h0|
  {
    h, popped := h0, 0;
    while |h| > 0 && h[0] !in live
      invariant Heaps.IsHeap(h, PriceLe) && OnlyLost(h0, h, [], live) && |h| + popped == |h0|
      invariant multiset(h) <= multiset(h0) && LiveSum(h, live) == LiveSum(h0, live) && SameLive(h, h0, live)
      decreases |h|
    {
      ghost var before := h;
      var x;
      h, x := Heaps.Pop(h, PriceLe);
      PoppedMembers(before, h, x);
      PoppedSum(before, h, x, live);
      popped := popped + 1;
    }
  }

  lemma RootIsCheapest(h: seq<Tx>)
    requires Heaps.IsHeap(h, PriceLe)
    ensures forall tx :: tx in h ==> PriceLe(h[0], tx)
  {
    forall tx | tx in h
      ensures PriceLe(h[0], tx)
    {
      var k :| 0 <= k < |h| && h[k] == tx;
      Heaps.RootIsLeast(h, PriceLe, k);
    }
  }

  /** The popping loop of Cap. */
  method PopCheaper(h0: seq<Tx>, live: set<Tx>, threshold: nat) returns (h: seq<Tx>, drop: seq<Tx>, stale: nat)
    requires Heaps.IsHeap(h0, PriceLe)
    ensures Heaps.IsHeap(h, PriceLe) && OnlyLost(h0, h, drop, live)
    ensures forall tx :: tx in drop ==> tx in live && tx.price < threshold
    ensures forall tx :: tx in h ==> threshold <= tx.price
  {
    h, drop, stale := h0, [], 0;
    while |h| > 0
      invariant Heaps.IsHeap(h, PriceLe) && OnlyLost(h0, h, drop, live)
      invariant forall tx :: tx in drop ==> tx in live && tx.price < threshold
      decreases |h|
    {
      var cheapest := h[0];
      if cheapest in live && threshold <= cheapest.price {
        RootIsCheapest(h);
        break;
      }
      ghost var before := h;
      var x;
      h, x := Heaps.Pop(h, PriceLe);
      PoppedMembers(before, h, x);
      if cheapest in live {
        drop := drop + [cheapest];
      } else {
        stale := stale + 1;
      }
    }
  }

  /** No transaction of `drop` is above one of `h`. */
  ghost predicate BelowAll(drop: seq<Tx>, h: seq<Tx>) {
    forall d, tx :: d in drop && tx in h ==> PriceLe(d, tx)
  }

  /** The live entries of `h0` are in `drop` or still in `h`. */
  ghost predicate PartLive(drop: seq<Tx>, h: seq<Tx>, h0: seq<Tx>, live: set<Tx>) {
    forall t :: t in live ==> multiset(drop)[t] + multiset(h)[t] == multiset(h0)[t]
  }

  /** Pops the cheapest entry, which is no cheaper than those in `drop`. */
  method PopOne(h0: seq<Tx>, ghost live: set<Tx>, ghost drop: seq<Tx>) returns (h: seq<Tx>, tx: Tx)
    requires h0 != [] && Heaps.IsHeap(h0, PriceLe)
    requires BelowAll(drop, h0)
    ensures Heaps.IsHeap(h, PriceLe) && OnlyLost(h0, h, [tx], live)
    ensures multiset(h) + multiset{tx} == multiset(h0) && |h| < |h0|
    ensures LiveSum(h, live) + (if tx in live then NumSlots(tx) else 0) == LiveSum(h0, live)
    ensures BelowAll(drop + [tx], h) && BelowAll(drop, h)
  {
    h, tx := Heaps.Pop(h0, PriceLe);
    PoppedMembers(h0, h, tx);
    PoppedSum(h0, h, tx, live);
  }

  /** The popping loop of Discard: `drop` has come off the heap `h0` so far, and `h` is left. */
  ghost predicate Popping(drop: seq<Tx>, h: seq<Tx>, h0: seq<Tx>, live: set<Tx>, slots: int) {
    && OnlyLost(h0, h, drop, live) && multiset(h) + multiset(drop) <= multiset(h0)
    && (forall tx :: tx in drop ==> tx in live) && Heaps.SortedBy(drop, PriceLe) && BelowAll(drop, h)
    && PartLive(drop, h, h0, live) && LiveSum(h, live) + SlotSum(drop) == LiveSum(h0, live)
    && (drop != [] ==> SlotSum(drop[..|drop| - 1]) < slots)
  }

  /** The drops once the popped entry has joined them, which it does if it is live. */
  function More(drop: seq<Tx>, tx: Tx, live: set<Tx>): seq<Tx> {
    if tx in live then drop + [tx] else drop
  }

  lemma PopsOne(drop: seq<Tx>, h: seq<Tx>, h': seq<Tx>, tx: Tx, h0: seq<Tx>, live: set<Tx>, slots: int)
    requires Popping(drop, h, h0, live, slots) && SlotSum(drop) < slots
    requires OnlyLost(h, h', [tx], live) && multiset(h') + multiset{tx} == multiset(h)
    requires LiveSum(h', live) + (if tx in live then NumSlots(tx) else 0) == LiveSum(h, live)
    requires BelowAll(drop + [tx], h') && BelowAll(drop, h')
    ensures Popping(More(drop, tx, live), h', h0, live, slots)
  {
    PartMore(drop, h, h', tx, h0, live);
    LostMore(drop, h, h', tx, h0, live);
    BoundMore(drop, h, h', tx, h0, live);
    SumMore(drop, tx, live, slots);
    SortedMore(drop, h, tx, live);
  }

  lemma BoundMore(drop: seq<Tx>, h: seq<Tx>, h': seq<Tx>, tx: Tx, h0: seq<Tx>, live: set<Tx>)
    requires multiset(h) + multiset(drop) <= multiset(h0) && multiset(h') + multiset{tx} == multiset(h)
    ensures multiset(h') + multiset(More(drop, tx, live)) <= multiset(h0)
  {
    assert multiset(drop + [tx]) == multiset(drop) + multiset{tx};
  }

  lemma SumMore(drop: seq<Tx>, tx: Tx, live: set<Tx>, slots: int)
    requires SlotSum(drop) < slots && (drop != [] ==> SlotSum(drop[..|drop| - 1]) < slots)
    ensures var more := More(drop, tx, live);
      && SlotSum(more) == SlotSum(drop) + (if tx in live then NumSlots(tx) else 0)
      && (more != [] ==> SlotSum(more[..|more| - 1]) < slots)
  {
    assert (drop + [tx])[..|drop|] == drop;
  }

  lemma SortedMore(drop: seq<Tx>, h: seq<Tx>, tx: Tx, live: set<Tx>)
    requires Heaps.SortedBy(drop, PriceLe) && BelowAll(drop, h) && tx in multiset(h)
    requires forall t :: t in drop ==> t in live
    ensures var more := More(drop, tx, live);
      Heaps.SortedBy(more, PriceLe) && forall t :: t in more ==> t in live
  {
    var more := More(drop, tx, live);
    forall i, j | 0 <= i < j < |more|
      ensures PriceLe(more[i], more[j])
    {
      assert more[i] == drop[i] && drop[i] in drop;
    }
  }

  lemma PartMore(drop: seq<Tx>, h: seq<Tx>, h': seq<Tx>, tx: Tx, h0: seq<Tx>, live: set<Tx>)
    requires PartLive(drop, h, h0, live) && multiset(h') + multiset{tx} == multiset(h)
    ensures PartLive(More(drop, tx, live), h', h0, live)
  {
    forall t | t in live
      ensures multiset(More(drop, tx, live))[t] + multiset(h')[t] == multiset(h0)[t]
    {
      assert multiset(h)[t] == multiset(h')[t] + multiset{tx}[t];
    }
  }

  lemma LostMore(drop: seq<Tx>, h: seq<Tx>, h': seq<Tx>, tx: Tx, h0: seq<Tx>, live: set<Tx>)
    requires OnlyLost(h0, h, drop, live) && OnlyLost(h, h', [tx], live) && BelowAll(drop + [tx], h')
    requires BelowAll(drop, h')
    ensures OnlyLost(h0, h', More(drop, tx, live), live) && BelowAll(More(drop, tx, live), h')
  {
  }

  lemma PopsEnd(drop: seq<Tx>, h: seq<Tx>, h0: seq<Tx>, live: set<Tx>, slots: int)
    requires Popping(drop, h, h0, live, slots) && (h == [] || slots <= SlotSum(drop))
    ensures Prefix(drop, h0, live, slots, true) && (slots <= SlotSum(drop) ==> Prefix(drop, h0, live, slots, false))
  {
    forall d, t | d in drop && t in live && multiset(drop)[t] < multiset(h0)[t]
      ensures PriceLe(d, t)
    {
      assert t in multiset(h);
    }
  }

  /** The popping loop of Discard: cheapest first until the drops free `slots` slots. */
  method PopSlots(h0: seq<Tx>, live: set<Tx>, slots: int) returns (h: seq<Tx>, drop: seq<Tx>, left: int, stale: nat)
    requires Heaps.IsHeap(h0, PriceLe)
    ensures Heaps.IsHeap(h, PriceLe) && OnlyLost(h0, h, drop, live)
    ensures multiset(h) + multiset(drop) <= multiset(h0)
    ensures forall tx :: tx in drop ==> tx in live
    ensures forall d, tx :: d in drop && tx in h ==> PriceLe(d, tx)
    ensures left == slots - SlotSum(drop) && (left > 0 ==> h == [])
    ensures LiveSum(h, live) + SlotSum(drop) == LiveSum(h0, live)
    ensures Prefix(drop, h0, live, slots, true) && (left <= 0 ==> Prefix(drop, h0, live, slots, false))
  {
    h, drop, left, stale := h0, [], slots, 0;
    while |h| > 0 && left > 0
      invariant Heaps.IsHeap(h, PriceLe) && Popping(drop, h, h0, live, slots) && left == slots - SlotSum(drop)
      decreases |h|
    {
      ghost var before := h;
      var tx;
      h, tx := PopOne(h, live, drop);
      PopsOne(drop, before, h, tx, h0, live, slots);
      if tx in live {
        assert (drop + [tx])[..|drop|] == drop;
        drop := drop + [tx];
        left := left - NumSlots(tx);
      } else {
        stale := stale + 1;
      }
    }
    PopsEnd(drop, h, h0, live, slots);
  }

  method PushAll(h0: seq<Tx>, back: seq<Tx>) returns (h: seq<Tx>)
    requires Heaps.IsHeap(h0, PriceLe)
    ensures Heaps.IsHeap(h, PriceLe) && multiset(h) == multiset(h0) + multiset(back)
  {
    h := h0;
    for i := 0 to |back|
      invariant Heaps.IsHeap(h, PriceLe) && multiset(h) == multiset(h0) + multiset(back[..i])
    {
      h := Heaps.Push(h, PriceLe, back[i]);
      assert back[..i + 1] == back[..i] + [back[i]];
    }
    assert back[..|back|] == back;
  }

  class TxPricedList {
    const all: TxLookup
    var remotes: seq<Tx>
    var stales: int

    ghost predicate Valid()
      reads this
    {
      Heaps.IsHeap(remotes, PriceLe)
    }

    /** Every remote transaction outside `exempt` has a heap entry. */
    ghost predicate Covers(exempt: set<Tx>)
      reads this, all
    {
      forall tx :: tx in all.remotes && tx !in exempt ==> tx in remotes
    }

    constructor (all: TxLookup)
      ensures Valid() && this.all == all && remotes == [] && stales == 0
    {
      this.all, remotes, stales := all, [], 0;
    }

    method Put(tx: Tx, local: bool)
      requires Valid()
      modifies this
      ensures Valid()
      ensures local ==> remotes == old(remotes)
      ensures !local ==> multiset(remotes) == multiset(old(remotes)) + multiset{tx}
      ensures stales == old(stales)
      ensures forall t :: t in remotes <==> t in old(remotes) || (!local && t == tx)
    {
      if local {
        return;
      }
      ghost var before := remotes;
      remotes := Heaps.Push(remotes, PriceLe, tx);
      PoppedMembers(remotes, before, tx);
    }

    /** Rebuilds the heap from the current remote transactions. */
    method Reheap()
      modifies this
      ensures Valid() && stales == 0
      ensures multiset(remotes) == multiset(all.remotes)
      ensures forall tx :: tx in remotes <==> tx in all.remotes
    {
      var todo, h := all.remotes, [];
      while todo != {}
        invariant todo <= all.remotes && multiset(h) + multiset(todo) == multiset(all.remotes)
        decreases todo
      {
        var tx :| tx in todo;
        assert multiset(todo) == multiset(todo - {tx}) + multiset{tx};
        h, todo := h + [tx], todo - {tx};
      }
      remotes := Heaps.Init(h, PriceLe);
      stales := 0;
      forall tx
        ensures tx in remotes <==> tx in all.remotes
      {
        assert tx in remotes <==> tx in multiset(remotes);
        assert tx in all.remotes <==> tx in multiset(all.remotes);
      }
    }

    /** Counts stale entries and rebuilds the heap once they exceed a quarter of it. */
    method Removed(count: nat)
      requires Valid()
      modifies this
      ensures Valid()
      ensures remotes == old(remotes) || forall tx :: tx in remotes <==> tx in all.remotes
      ensures old(stales) + count <= |old(remotes)| / 4 ==> remotes == old(remotes) && stales == old(stales) + count
    {
      stales := stales + count;
      if stales <= |remotes| / 4 {
        return;
      }
      Reheap();
    }

    /** Drops every remote transaction cheaper than `threshold` from the heap and returns them. */
    method Cap(threshold: nat) returns (drop: seq<Tx>)
      requires Valid() && Covers({})
      modifies this
      ensures Valid()
      ensures forall tx :: tx in drop <==> tx in all.remotes && tx.price < threshold
      ensures Covers(AsSet(drop))
    {
      var stale;
      remotes, drop, stale := PopCheaper(remotes, all.remotes, threshold);
      stales := stales - stale;
    }

    /** Whether the cheapest remote transaction is at least as expensive as `tx`. */
    method Underpriced(tx: Tx) returns (r: bool)
      requires Valid() && Covers({})
      modifies this
      ensures Valid() && Covers({})
      ensures multiset(remotes) <= multiset(old(remotes)) && SameLive(remotes, old(remotes), all.remotes)
      ensures LiveSum(remotes, all.remotes) == LiveSum(old(remotes), all.remotes)
      ensures r <==> all.remotes != {} && forall t :: t in all.remotes ==> tx.price <= t.price
    {
      var popped;
      remotes, popped := Clean(remotes, all.remotes);
      stales := stales - popped;
      if |remotes| == 0 {
        assert all.remotes == {} by {
          assert forall t :: t !in all.remotes;
        }
        return false;
      }
      RootIsCheapest(remotes);
      var cheapest := remotes[0];
      return tx.price <= cheapest.price;
    }

    /** Takes the cheapest remote transactions until `slots` slots are covered; unless forced, puts
        them back when the heap runs out first. */
    method Discard(slots: nat, force: bool) returns (drop: seq<Tx>, success: bool)
      requires Valid() && Covers({})
      modifies this
      ensures Valid() && Covers(AsSet(drop))
      ensures forall tx :: tx in drop ==> tx in all.remotes
      ensures forall tx :: tx in remotes ==> tx in old(remotes)
      ensures multiset(drop) + multiset(remotes) <= multiset(old(remotes))
      ensures success <==> force || slots <= LiveSum(old(remotes), all.remotes)
      ensures !success ==> drop == []
      ensures success && SlotSum(drop) < slots ==> force && forall tx :: tx in all.remotes ==> tx in drop
      ensures success ==> forall d, tx :: d in drop && tx in all.remotes ==> tx in drop || PriceLe(d, tx)
      ensures success ==> Prefix(drop, old(remotes), all.remotes, slots, force)
      ensures NoTwice(old(remotes)) ==> SlotsOf(AsSet(drop)) == SlotSum(drop)
    {
      var left, stale;
      ghost var before := remotes;
      remotes, drop, left, stale := PopSlots(remotes, all.remotes, slots);
      stales := stales - stale;
      if left > 0 && !force {
        ghost var popped := remotes;
        remotes := PushAll(remotes, drop);
        SameMembers(remotes, popped + drop);
        SetSlots([]);
        return [], false;
      }
      SetSlots(drop);
      assert forall tx :: multiset(drop)[tx] <= multiset(old(remotes))[tx];
      return drop, true;
    }
  }
}
