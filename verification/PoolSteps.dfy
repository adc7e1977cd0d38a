/** What promoting and demoting do to the lists of one account, as values. */
module PoolSteps {
  import opened Options
  import opened Transactions
  import opened TxLists
  import opened PoolViews

  /** What the pool knows about an account at the current head, and the block gas limit. */
  datatype Means = Means(nonce: nat, balance: nat, gas: nat)

  predicate Payable(tx: Tx, means: Means) {
    !Unpayable(tx, means.balance, means.gas)
  }

  ghost predicate AllPayable(m: Items, means: Means) {
    forall k :: k in m ==> Payable(m[k], means)
  }

  /** A queue once stale and, if the gas price counts, unpayable transactions are out. */
  function Swept(l: TxListValue, means: Means, gasPriceOn: bool): TxListValue {
    var f := l.(items := AtLeast(l.items, means.nonce));
    if gasPriceOn then Limited(f, means.balance, means.gas) else f
  }

  /** What a queue gives up to the pending list. */
  function Promotable(l: TxListValue, means: Means, gasPriceOn: bool, next: nat): Items {
    Run(Swept(l, means, gasPriceOn).items, next)
  }

  /** What a queue holds on to; `cap` is absent for local accounts. */
  function Queued(l: TxListValue, means: Means, gasPriceOn: bool, next: nat, cap: Option<nat>): TxListValue {
    var m := Swept(l, means, gasPriceOn).items - Promotable(l, means, gasPriceOn, next).Keys;
    Swept(l, means, gasPriceOn).(items := if cap.Some? then Lowest(m, cap.value) else m)
  }

  /** A pending list without stale and unpayable transactions and whatever they cut off. */
  function Affordable(l: TxListValue, means: Means): TxListValue {
    Limited(l.(items := AtLeast(l.items, means.nonce)), means.balance, means.gas)
  }

  predicate FrontGap(l: TxListValue, means: Means) {
    Affordable(l, means).items != map[] && means.nonce !in Affordable(l, means).items
  }

  /** A pending list after demotion: empty if its first executable nonce is missing. */
  function Demoted(l: TxListValue, means: Means): TxListValue {
    if FrontGap(l, means) then Affordable(l, means).(items := map[]) else Affordable(l, means)
  }

  /** What demotion sends back to the queue. */
  function SentBack(l: TxListValue, means: Means): Items {
    AtLeast(l.items, means.nonce) - Demoted(l, means).items.Keys
      - Overdrawn(AtLeast(l.items, means.nonce), means.balance, means.gas).Keys
  }

  lemma ForwardedIsOk(l: TxListValue, n: nat, strict: bool, a: Addr)
    requires ListOk(l, strict, a)
    ensures ListOk(l.(items := AtLeast(l.items, n)), strict, a)
  {
  }

  lemma LimitedIsOk(l: TxListValue, cost: nat, gas: nat, strict: bool, a: Addr)
    requires ListOk(l, strict, a)
    ensures ListOk(Limited(l, cost, gas), strict, a) && SubItems(Limited(l, cost, gas).items, l.items)
    ensures forall k :: k in Limited(l, cost, gas).items ==> !Unpayable(l.items[k], cost, gas)
    ensures !strict ==> Limited(l, cost, gas).items == l.items - Overdrawn(l.items, cost, gas).Keys
  {
    FilterPartitions(l, cost, gas);
    EarlyExitIsSound(l, cost, gas);
  }

  lemma SweptFacts(l: TxListValue, means: Means, gasPriceOn: bool, a: Addr)
    requires ListOk(l, false, a)
    ensures var s := Swept(l, means, gasPriceOn);
      && ListOk(s, false, a) && SubItems(s.items, l.items)
      && (gasPriceOn ==> AllPayable(s.items, means))
      && s.items == AtLeast(l.items, means.nonce) -
           (if gasPriceOn then Overdrawn(AtLeast(l.items, means.nonce), means.balance, means.gas) else map[]).Keys
  {
    var f := l.(items := AtLeast(l.items, means.nonce));
    ForwardedIsOk(l, means.nonce, false, a);
    if gasPriceOn {
      LimitedIsOk(f, means.balance, means.gas, false, a);
    } else {
      assert f.items - {} == f.items;
    }
  }

  lemma RunFacts(m: Items, next: nat)
    ensures SubItems(Run(m, next), m)
    ensures Run(m, next) != map[] ==>
      Least(m.Keys) <= next && Interval(Run(m, next).Keys, Least(m.Keys), RunEnd(m.Keys, Least(m.Keys)))
    ensures Run(m, next) == map[] ==> m == map[] || next < Least(m.Keys)
  {
    if m.Keys != {} && Least(m.Keys) <= next {
      assert Least(m.Keys) in Run(m, next);
    }
  }

  lemma QueuedFacts(l: TxListValue, means: Means, gasPriceOn: bool, next: nat, cap: Option<nat>, a: Addr)
    requires ListOk(l, false, a)
    ensures var run, kept := Promotable(l, means, gasPriceOn, next), Queued(l, means, gasPriceOn, next, cap);
      && ListOk(kept, false, a) && SubItems(kept.items, l.items) && SubItems(run, l.items)
      && run.Keys !! kept.items.Keys
      && SubItems(run, Swept(l, means, gasPriceOn).items) && SubItems(kept.items, Swept(l, means, gasPriceOn).items)
  {
    var s := Swept(l, means, gasPriceOn);
    SweptFacts(l, means, gasPriceOn, a);
    RunFacts(s.items, next);
    var m := s.items - Promotable(l, means, gasPriceOn, next).Keys;
    if cap.Some? {
      LowestSplits(m, cap.value);
    }
    SubListOk(s, Queued(l, means, gasPriceOn, next, cap).items, false, a);
  }

  /** Moving part of a queue to the pending list and dropping another part for good. */
  lemma Promote(p: Accounts, q: Accounts, txs: set<Tx>, a: Addr, pl: TxListValue, run: Items,
                ql: TxListValue, gone: set<Tx>)
    requires Consistent(p, q, txs)
    requires ListOk(ql, false, a) && SubItems(ql.items, ItemsOf(q, a)) && SubItems(run, ItemsOf(q, a))
    requires ql.items.Keys !! run.Keys
    requires ListOk(pl, true, a) && pl.items == ItemsOf(p, a) + run
    requires forall tx :: tx in gone <==> Holds(ItemsOf(q, a), tx) && tx.nonce !in ql.items && tx.nonce !in run
    ensures Consistent(With(p, a, pl), With(q, a, ql), txs - gone)
  {
    OwnLists(p, q, txs, a);
    var P, Q := ItemsOf(p, a), ItemsOf(q, a);
    forall tx: Tx | tx.from == a
      ensures tx in txs - gone <==> Holds(pl.items, tx) || Holds(ql.items, tx)
    {
      assert tx in txs <==> Holds(P, tx) || Holds(Q, tx);
    }
    forall tx: Tx | tx.from != a
      ensures tx in txs - gone <==> tx in txs
    {
      assert forall k :: k in Q ==> Q[k].from == a;
    }
    AccountChange(p, q, txs, a, pl, ql, txs - gone);
  }

  lemma DemotedFacts(l: TxListValue, means: Means, a: Addr)
    requires ListOk(l, true, a)
    ensures var d, b := Demoted(l, means), SentBack(l, means);
      && ListOk(d, true, a) && SubItems(d.items, l.items) && SubItems(b, l.items)
      && d.items.Keys !! b.Keys
      && AllPayable(d.items, means) && AllPayable(b, means)
      && (forall k :: k in b || k in d.items ==> means.nonce <= k)
  {
    var f := l.(items := AtLeast(l.items, means.nonce));
    ForwardedIsOk(l, means.nonce, true, a);
    LimitedIsOk(f, means.balance, means.gas, true, a);
  }

  lemma PartsOf(m: Items, n: nat, dear: Items, run: Items, kept: Items, tx: Tx)
    requires SubItems(dear, AtLeast(m, n))
    requires SubItems(run, AtLeast(m, n) - dear.Keys) && SubItems(kept, AtLeast(m, n) - dear.Keys)
    ensures (Holds(m, tx) && tx.nonce !in kept && tx.nonce !in run) <==>
      Holds(Below(m, n), tx) || Holds(dear, tx) || Holds(AtLeast(m, n) - dear.Keys - run.Keys - kept.Keys, tx)
  {
    if tx.nonce in m {
      assert tx.nonce < n <==> tx.nonce in Below(m, n);
      assert tx.nonce >= n <==> tx.nonce in AtLeast(m, n);
    }
  }

  /** The three kinds of transactions a queue loses for good, in the order they are dropped. */
  lemma QueueLosses(l: TxListValue, means: Means, gasPriceOn: bool, next: nat, cap: Option<nat>, a: Addr, tx: Tx)
    requires ListOk(l, false, a)
    ensures var s := Swept(l, means, gasPriceOn).items;
      var run, kept := Promotable(l, means, gasPriceOn, next), Queued(l, means, gasPriceOn, next, cap).items;
      (Holds(l.items, tx) && tx.nonce !in kept && tx.nonce !in run) <==>
        Holds(Below(l.items, means.nonce), tx) || Holds(Priceless(l, means, gasPriceOn), tx)
        || Holds(s - run.Keys - kept.Keys, tx)
  {
    var run, kept := Promotable(l, means, gasPriceOn, next), Queued(l, means, gasPriceOn, next, cap).items;
    var dear := Priceless(l, means, gasPriceOn);
    SweptFacts(l, means, gasPriceOn, a);
    assert Swept(l, means, gasPriceOn).items == AtLeast(l.items, means.nonce) - dear.Keys;
    assert SubItems(run, Swept(l, means, gasPriceOn).items) && SubItems(kept, Swept(l, means, gasPriceOn).items) by {
      QueuedFacts(l, means, gasPriceOn, next, cap, a);
    }
    PartsOf(l.items, means.nonce, dear, run, kept, tx);
  }

  /** The unpayable part of a queue, if the gas price counts. */
  function Priceless(l: TxListValue, means: Means, gasPriceOn: bool): Items {
    if gasPriceOn then Overdrawn(AtLeast(l.items, means.nonce), means.balance, means.gas) else map[]
  }

  lemma ListsConcat(s: seq<Tx>, m: Items, t: seq<Tx>, n: Items)
    requires Lists(s, m) && Lists(t, n) && m.Keys !! n.Keys
    ensures Lists(s + t, m + n)
  {
    assert (m + n).Keys == m.Keys + n.Keys;
    forall tx
      ensures tx in s + t <==> Holds(m + n, tx)
    {
      assert tx in s + t <==> tx in s || tx in t;
      assert Holds(m + n, tx) <==> Holds(m, tx) || Holds(n, tx);
    }
  }

  /** The promoted part of a queue is fresh in the pending list of its account. */
  lemma PromoteFacts(p: Accounts, q: Accounts, txs: set<Tx>, a: Addr, run: Items, s: seq<Tx>)
    requires Consistent(p, q, txs) && SubItems(run, ItemsOf(q, a)) && Lists(s, run)
    ensures AllIn(s, a) && DistinctIn(s)
    ensures forall i :: 0 <= i < |s| ==> s[i].nonce !in ItemsOf(p, a)
    ensures AddAll(ListOf(p, a, true), s).items == ItemsOf(p, a) + run
    ensures ListOk(AddAll(ListOf(p, a, true), s), true, a)
  {
    OwnLists(p, q, txs, a);
    assert Filed(run);
    forall i | 0 <= i < |s|
      ensures s[i].from == a && s[i].size > 0 && s[i].nonce in ItemsOf(q, a)
    {
      assert s[i] in s;
      assert Holds(run, s[i]);
    }
    DistinctNonces(s, run);
    AddAllUnion(ListOf(p, a, true), s, run);
    AddAllIsOk(ListOf(p, a, true), s, true, a);
  }

  lemma PromoteReady(p: Accounts, q: Accounts, txs: set<Tx>, a: Addr, run: Items, s: seq<Tx>)
    requires Consistent(p, q, txs) && SubItems(run, ItemsOf(q, a)) && Lists(s, run)
    ensures AllIn(s, a) && DistinctIn(s)
    ensures forall i :: 0 <= i < |s| ==> s[i].nonce !in ItemsOf(p, a)
  {
    PromoteFacts(p, q, txs, a, run, s);
  }

  /** Promoting out of one queue keeps the views consistent. */
  lemma AccountPromoted(p: Accounts, q: Accounts, txs: set<Tx>, a: Addr, means: Means, gasPriceOn: bool, next: nat,
                        cap: Option<nat>, ready: seq<Tx>, gone: set<Tx>)
    requires Consistent(p, q, txs) && a in q
    requires Lists(ready, Promotable(q[a], means, gasPriceOn, next))
    requires var s := Swept(q[a], means, gasPriceOn).items;
      var run, kept := Promotable(q[a], means, gasPriceOn, next), Queued(q[a], means, gasPriceOn, next, cap).items;
      forall tx :: tx in gone <==>
        (Holds(Below(q[a].items, means.nonce), tx)
         || Holds(Priceless(q[a], means, gasPriceOn), tx) || Holds(s - run.Keys - kept.Keys, tx))
    ensures var pl := AddAll(ListOf(p, a, true), ready);
      && pl.items == ItemsOf(p, a) + Promotable(q[a], means, gasPriceOn, next)
      && Consistent(With(p, a, pl), With(q, a, Queued(q[a], means, gasPriceOn, next, cap)), txs - gone)
  {
    ListsAreOk(p, q, txs, a);
    var l := q[a];
    var run, kept := Promotable(l, means, gasPriceOn, next), Queued(l, means, gasPriceOn, next, cap);
    QueuedFacts(l, means, gasPriceOn, next, cap, a);
    PromoteFacts(p, q, txs, a, run, ready);
    forall tx
      ensures tx in gone <==> Holds(l.items, tx) && tx.nonce !in kept.items && tx.nonce !in run
    {
      QueueLosses(l, means, gasPriceOn, next, cap, a, tx);
    }
    Promote(p, q, txs, a, AddAll(ListOf(p, a, true), ready), run, kept, gone);
  }

  /** Demoting out of one pending list keeps the views consistent. */
  lemma AccountDemoted(p: Accounts, q: Accounts, txs: set<Tx>, a: Addr, means: Means, back: seq<Tx>, gone: set<Tx>)
    requires Consistent(p, q, txs) && a in p
    requires Lists(back, SentBack(p[a], means))
    requires forall tx :: tx in gone <==>
      (Holds(Below(p[a].items, means.nonce), tx)
       || Holds(Overdrawn(AtLeast(p[a].items, means.nonce), means.balance, means.gas), tx))
    ensures var ql := AddAll(ListOf(q, a, false), back);
      && ql.items == ItemsOf(q, a) + SentBack(p[a], means)
      && Consistent(With(p, a, Demoted(p[a], means)), With(q, a, ql), txs - gone)
  {
    ListsAreOk(p, q, txs, a);
    var l := p[a];
    DemotedFacts(l, means, a);
    RequeueFacts(p, q, txs, a, SentBack(l, means), back);
    forall tx
      ensures tx in gone <==>
        Holds(l.items, tx) && tx.nonce !in Demoted(l, means).items && tx.nonce !in SentBack(l, means)
    {
      DemotionLosses(l, means, tx, a);
    }
    Requeue(p, q, txs, a, Demoted(l, means), SentBack(l, means), AddAll(ListOf(q, a, false), back), gone);
  }

  lemma DemotionLosses(l: TxListValue, means: Means, tx: Tx, a: Addr)
    requires ListOk(l, true, a)
    ensures Holds(l.items, tx) && tx.nonce !in Demoted(l, means).items && tx.nonce !in SentBack(l, means) <==>
      || Holds(Below(l.items, means.nonce), tx)
      || Holds(Overdrawn(AtLeast(l.items, means.nonce), means.balance, means.gas), tx)
  {
    var f := l.(items := AtLeast(l.items, means.nonce));
    ForwardedIsOk(l, means.nonce, true, a);
    LimitedIsOk(f, means.balance, means.gas, true, a);
    if tx.nonce in l.items {
      assert tx.nonce < means.nonce <==> tx.nonce in Below(l.items, means.nonce);
      assert tx.nonce >= means.nonce <==> tx.nonce in AtLeast(l.items, means.nonce);
    }
  }

  lemma FlattenedSet(m: Items)
    requires Filed(m)
    ensures Lists(Flatten(m), m) && forall tx :: tx in AsSet(Flatten(m)) <==> Holds(m, tx)
  {
    FlattenLists(m);
  }

  lemma QueueListings(p: Accounts, q: Accounts, txs: set<Tx>, a: Addr, means: Means, gasPriceOn: bool, next: nat,
                      cap: Option<nat>, first: seq<Tx>, ready: seq<Tx>, caps: seq<Tx>)
    requires Consistent(p, q, txs) && a in q
    requires first == Flatten(Below(q[a].items, means.nonce)) + Flatten(Priceless(q[a], means, gasPriceOn))
    requires ready == Flatten(Promotable(q[a], means, gasPriceOn, next))
    requires var run, kept := Promotable(q[a], means, gasPriceOn, next), Queued(q[a], means, gasPriceOn, next, cap);
      caps == Flatten(Swept(q[a], means, gasPriceOn).items - run.Keys - kept.items.Keys)
    ensures AllIn(ready, a) && DistinctIn(ready)
    ensures forall i :: 0 <= i < |ready| ==> ready[i].nonce !in ItemsOf(p, a)
    ensures AddAll(ListOf(p, a, true), ready).items == ItemsOf(p, a) + Promotable(q[a], means, gasPriceOn, next)
    ensures Consistent(With(p, a, AddAll(ListOf(p, a, true), ready)),
                       With(q, a, Queued(q[a], means, gasPriceOn, next, cap)), txs - (AsSet(first) + AsSet(caps)))
  {
    ListsAreOk(p, q, txs, a);
    var l := q[a];
    var s, run := Swept(l, means, gasPriceOn).items, Promotable(l, means, gasPriceOn, next);
    var kept := Queued(l, means, gasPriceOn, next, cap).items;
    SweptFacts(l, means, gasPriceOn, a);
    QueuedFacts(l, means, gasPriceOn, next, cap, a);
    FlattenedSet(Below(l.items, means.nonce));
    FlattenedSet(Priceless(l, means, gasPriceOn));
    AsSetJoins(Flatten(Below(l.items, means.nonce)), Flatten(Priceless(l, means, gasPriceOn)));
    FlattenedSet(s - run.Keys - kept.Keys);
    FlattenedSet(run);
    PromoteReady(p, q, txs, a, run, ready);
    AccountPromoted(p, q, txs, a, means, gasPriceOn, next, cap, ready, AsSet(first) + AsSet(caps));
  }

  lemma PendingListings(p: Accounts, q: Accounts, txs: set<Tx>, a: Addr, means: Means, back: seq<Tx>, gone: set<Tx>)
    requires Consistent(p, q, txs) && a in p
    requires var l := p[a];
      var recent := AtLeast(l.items, means.nonce);
      var unpaid := Overdrawn(recent, means.balance, means.gas);
      && gone == AsSet(Flatten(Below(l.items, means.nonce))) + AsSet(Flatten(unpaid))
      && back == Flatten(recent - Affordable(l, means).items.Keys - unpaid.Keys)
           + (if FrontGap(l, means) then Flatten(Affordable(l, means).items) else [])
    ensures AllIn(back, a) && DistinctIn(back)
    ensures forall i :: 0 <= i < |back| ==> back[i].nonce !in ItemsOf(q, a)
    ensures AddAll(ListOf(q, a, false), back).items == ItemsOf(q, a) + SentBack(p[a], means)
    ensures Consistent(With(p, a, Demoted(p[a], means)), With(q, a, AddAll(ListOf(q, a, false), back)), txs - gone)
  {
    ListsAreOk(p, q, txs, a);
    var l := p[a];
    var recent := AtLeast(l.items, means.nonce);
    var unpaid := Overdrawn(recent, means.balance, means.gas);
    BackListing(l, means, a, back);
    FlattenedSet(Below(l.items, means.nonce));
    FlattenedSet(unpaid);
    DemotedFacts(l, means, a);
    RequeueReady(p, q, txs, a, SentBack(l, means), back);
    AccountDemoted(p, q, txs, a, means, back, gone);
  }

  lemma BackParts(l: TxListValue, means: Means, a: Addr)
    requires ListOk(l, true, a)
    ensures var recent, left := AtLeast(l.items, means.nonce), Affordable(l, means).items;
      var invalids := recent - left.Keys - Overdrawn(recent, means.balance, means.gas).Keys;
      && Filed(left) && Filed(invalids) && invalids.Keys !! left.Keys
      && SentBack(l, means) == (if FrontGap(l, means) then invalids + left else invalids)
  {
    var f := l.(items := AtLeast(l.items, means.nonce));
    ForwardedIsOk(l, means.nonce, true, a);
    LimitedIsOk(f, means.balance, means.gas, true, a);
    var left := Affordable(l, means).items;
    assert Demoted(l, means).items == (if FrontGap(l, means) then map[] else left);
  }

  lemma BackListing(l: TxListValue, means: Means, a: Addr, back: seq<Tx>)
    requires ListOk(l, true, a)
    requires var recent := AtLeast(l.items, means.nonce);
      back == Flatten(recent - Affordable(l, means).items.Keys - Overdrawn(recent, means.balance, means.gas).Keys)
           + (if FrontGap(l, means) then Flatten(Affordable(l, means).items) else [])
    ensures Lists(back, SentBack(l, means))
  {
    BackParts(l, means, a);
    var recent, left := AtLeast(l.items, means.nonce), Affordable(l, means).items;
    var invalids := recent - left.Keys - Overdrawn(recent, means.balance, means.gas).Keys;
    FlattenLists(invalids);
    FlattenLists(left);
    if FrontGap(l, means) {
      ListsConcat(Flatten(invalids), invalids, Flatten(left), left);
    } else {
      assert Flatten(invalids) + [] == Flatten(invalids);
    }
  }
}
