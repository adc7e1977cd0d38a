/** Truncating lists to a common level: counting, levelling and what a round of capping does. */
module PoolTruncation {
  import opened Transactions
  import opened TxLists
  import opened PoolViews

  /** The number of transactions in all lists. */
  ghost function Total(m: Accounts): nat {
    if m.Keys == {} then 0 else
      var a :| a in m.Keys;
      assert m.Keys == (m - {a}).Keys + {a};
      |m[a].items| + Total(m - {a})
  }

  /** The total does not depend on the order of counting. */
  lemma {:induction false} TotalSplits(m: Accounts, a: Addr)
    requires a in m
    ensures Total(m) == |m[a].items| + Total(m - {a})
    decreases |m|
  {
    var b :| b in m.Keys && Total(m) == |m[b].items| + Total(m - {b});
    if a != b {
      assert m.Keys == (m - {b}).Keys + {b};
      assert m.Keys == (m - {a}).Keys + {a};
      TotalSplits(m - {b}, a);
      TotalSplits(m - {a}, b);
      assert m - {b} - {a} == m - {a} - {b};
    }
  }

  lemma TotalUpdate(m: Accounts, a: Addr, l: TxListValue)
    requires a in m
    ensures Total(m[a := l]) == Total(m) - |m[a].items| + |l.items|
  {
    TotalSplits(m, a);
    TotalSplits(m[a := l], a);
    assert m[a := l] - {a} == m - {a};
  }

  /** The counting loop over a map of lists. */
  method CountAll(m: Accounts) returns (n: nat)
    ensures n == Total(m)
  {
    n := 0;
    var rest := m;
    while rest.Keys != {}
      invariant n + Total(rest) == Total(m)
      decreases |rest|
    {
      var a :| a in rest.Keys;
      TotalSplits(rest, a);
      assert rest.Keys == (rest - {a}).Keys + {a};
      n, rest := n + |rest[a].items|, rest - {a};
    }
  }

  ghost function HeldBy(m: Items): set<Tx> {
    set k | k in m :: m[k]
  }

  ghost function Held(m: Accounts): set<Tx> {
    set a, k | a in m && k in m[a].items :: m[a].items[k]
  }

  lemma {:induction false} HeldByCount(m: Items)
    requires Filed(m)
    ensures |HeldBy(m)| == |m|
    decreases |m|
  {
    if m.Keys != {} {
      var k := Greatest(m.Keys);
      HeldByCount(m - {k});
      assert m.Keys == (m - {k}).Keys + {k};
      assert HeldBy(m) == HeldBy(m - {k}) + {m[k]};
    } else {
      assert HeldBy(m) == {};
    }
  }

  ghost predicate Owned(m: Accounts) {
    forall a :: a in m ==> Filed(m[a].items) && OwnedBy(m[a].items, a)
  }

  /** The total counts transactions. */
  lemma {:induction false} TotalIsCount(m: Accounts)
    requires Owned(m)
    ensures Total(m) == |Held(m)|
    decreases |m|
  {
    if m.Keys == {} {
      assert Held(m) == {};
    } else {
      var a :| a in m.Keys;
      assert m.Keys == (m - {a}).Keys + {a};
      TotalSplits(m, a);
      TotalIsCount(m - {a});
      HeldByCount(m[a].items);
      HeldSplits(m, a);
    }
  }

  lemma HeldSplits(m: Accounts, a: Addr)
    requires Owned(m) && a in m
    ensures Held(m) == Held(m - {a}) + HeldBy(m[a].items) && Held(m - {a}) !! HeldBy(m[a].items)
  {
    forall tx | tx in Held(m)
      ensures tx in Held(m - {a}) || tx in HeldBy(m[a].items)
    {
      var b, k :| b in m && k in m[b].items && m[b].items[k] == tx;
      assert b != a ==> b in m - {a} && k in (m - {a})[b].items;
    }
    forall tx | tx in Held(m - {a})
      ensures tx in Held(m) && tx.from != a
    {
      var b, k :| b in m - {a} && k in (m - {a})[b].items && (m - {a})[b].items[k] == tx;
      assert b in m && k in m[b].items;
    }
  }

  /** The pool's count of transactions is the total of its lists. */
  lemma TotalsCount(p: Accounts, q: Accounts, txs: set<Tx>)
    requires Consistent(p, q, txs)
    ensures Total(p) + Total(q) == |txs|
  {
    ViewsAreOwned(p, q, txs);
    TotalIsCount(p);
    TotalIsCount(q);
    forall tx
      ensures tx in txs <==> tx in Held(p) || tx in Held(q)
      ensures tx !in Held(p) || tx !in Held(q)
    {
      HeldOnce(p, q, txs, tx);
    }
    assert txs == Held(p) + Held(q) && Held(p) !! Held(q);
  }

  lemma ViewsAreOwned(p: Accounts, q: Accounts, txs: set<Tx>)
    requires Consistent(p, q, txs)
    ensures Owned(p) && Owned(q)
  {
    forall a
      ensures a in p ==> Filed(p[a].items) && OwnedBy(p[a].items, a)
      ensures a in q ==> Filed(q[a].items) && OwnedBy(q[a].items, a)
    {
      ListsAreOk(p, q, txs, a);
    }
  }

  lemma HeldOnce(p: Accounts, q: Accounts, txs: set<Tx>, tx: Tx)
    requires Consistent(p, q, txs) && Owned(p) && Owned(q)
    ensures tx in txs <==> tx in Held(p) || tx in Held(q)
    ensures tx !in Held(p) || tx !in Held(q)
  {
    HeldIs(p, tx);
    HeldIs(q, tx);
    OwnLists(p, q, txs, tx.from);
  }

  lemma HeldIs(m: Accounts, tx: Tx)
    requires Owned(m)
    ensures tx in Held(m) <==> Holds(ItemsOf(m, tx.from), tx)
  {
    if tx in Held(m) {
      var b, k :| b in m && k in m[b].items && m[b].items[k] == tx;
      assert Filed(m[b].items) && OwnedBy(m[b].items, b);
    }
  }

  /** `m` is `p` with the list of every account in `who` cut down to its `level` lowest nonces.
      Stated account by account, so that a proof sees only the accounts it names. */
  ghost predicate Levelled(p: Accounts, m: Accounts, who: set<Addr>, level: nat) {
    forall a :: LevelledAt(p, m, who, level, a)
  }

  ghost predicate LevelledAt(p: Accounts, m: Accounts, who: set<Addr>, level: nat, a: Addr) {
    && (a in m <==> a in p)
    && (a in p ==> m[a] == if a in who then Shortened(p[a], level) else p[a])
  }

  function Shortened(l: TxListValue, level: nat): TxListValue {
    l.(items := Lowest(l.items, level))
  }

  lemma {:induction false} LowestOfLowest(m: Items, n: nat, k: nat)
    requires k <= n
    ensures Lowest(Lowest(m, n), k) == Lowest(m, k)
    decreases |m|
  {
    if |m| > n {
      assert m.Keys != {};
      var top := Greatest(m.Keys);
      assert m.Keys == (m - {top}).Keys + {top};
      LowestOfLowest(m - {top}, n, k);
    }
  }

  lemma LevelledAgain(p: Accounts, m: Accounts, m': Accounts, who: set<Addr>, level: nat, lower: nat)
    requires lower <= level && Levelled(p, m, who, level) && Levelled(m, m', who, lower)
    ensures Levelled(p, m', who, lower)
  {
    forall a
      ensures LevelledAt(p, m', who, lower, a)
    {
      assert LevelledAt(p, m, who, level, a) && LevelledAt(m, m', who, lower, a);
      if a in p {
        LowestOfLowest(p[a].items, level, lower);
      }
    }
  }

  /** Lists at or below the level are not touched. */
  lemma LevelledMore(p: Accounts, m: Accounts, who: set<Addr>, more: set<Addr>, level: nat)
    requires Levelled(p, m, who, level) && who <= more
    requires forall a :: a in more && a !in who && a in p ==> |p[a].items| <= level
    ensures Levelled(p, m, more, level)
  {
    forall a
      ensures LevelledAt(p, m, more, level, a)
    {
      assert LevelledAt(p, m, who, level, a);
    }
  }

  lemma NoneLevelled(p: Accounts, level: nat)
    ensures Levelled(p, p, {}, level)
  {
    forall a
      ensures LevelledAt(p, p, {}, level, a)
    {
    }
  }

  /** One more list cut. */
  lemma OneLevelled(p: Accounts, m: Accounts, who: set<Addr>, level: nat, a: Addr)
    requires Levelled(p, m, who, level) && a in p && a !in who && |p[a].items| == level + 1
    ensures a in m && m[a] == p[a]
    ensures var m' := m[a := Shortened(m[a], level)]; Levelled(p, m', who + {a}, level) && Total(m') == Total(m) - 1
  {
    assert LevelledAt(p, m, who, level, a);
    var m' := m[a := Shortened(m[a], level)];
    TotalUpdate(m, a, Shortened(m[a], level));
    forall b
      ensures LevelledAt(p, m', who + {a}, level, b)
    {
      assert LevelledAt(p, m, who, level, b);
    }
  }

  lemma TopDropped(m: Items)
    requires m.Keys != {}
    ensures var top := Greatest(m.Keys);
      && Lowest(m, |m| - 1) == m - {top}
      && m - Lowest(m, |m| - 1).Keys == map[top := m[top]]
  {
    var top := Greatest(m.Keys);
    assert m.Keys == (m - {top}).Keys + {top};
    assert Lowest(m - {top}, |m| - 1) == m - {top};
  }

  /** Capping one pending list by one entry. */
  lemma CappedPending(p: Accounts, q: Accounts, txs: set<Tx>, a: Addr)
    requires Consistent(p, q, txs) && a in p && |p[a].items| >= 2
    ensures var m := p[a].items;
      var kept, top := Shortened(p[a], |m| - 1), m[Greatest(m.Keys)];
      && Flatten(m - kept.items.Keys) == [top] && top.nonce == Greatest(m.Keys) && kept.items == m - {top.nonce}
      && Consistent(p[a := kept], q, txs - {top})
  {
    var m := p[a].items;
    TopDropped(m);
    var kept, top := Lowest(m, |m| - 1), m[Greatest(m.Keys)];
    ListsAreOk(p, q, txs, a);
    OwnLists(p, q, txs, a);
    SubListOk(p[a], kept, true, a);
    assert ItemsOf(q, a) + map[] == ItemsOf(q, a);
    Requeue(p, q, txs, a, p[a].(items := kept), map[], ListOf(q, a, false), {top});
    WithSame(q, a, false);
    assert kept != map[];
    FlattenIsUnique([top], m - kept.Keys);
  }

  ghost function AddrSet(s: seq<Addr>): set<Addr> {
    set a | a in s
  }

  ghost predicate DistinctAddrs(s: seq<Addr>) {
    forall i, j :: 0 <= i < j < |s| ==> s[i] != s[j]
  }

  ghost predicate HasLength(m: Accounts, a: Addr, n: nat) {
    a in m && |m[a].items| == n
  }

  /** All of `who` have lists of length `level`. */
  ghost predicate Level(m: Accounts, who: seq<Addr>, level: nat) {
    forall i {:trigger HasLength(m, who[i], level)} :: 0 <= i < |who| ==> HasLength(m, who[i], level)
  }

  /** `m` is `p` with the lists of `who` cut to `level`, which they all reach. */
  ghost predicate AtLevel(p: Accounts, m: Accounts, who: seq<Addr>, level: nat) {
    Levelled(p, m, AddrSet(who), level) && Level(m, who, level)
  }

  lemma LastLength(m: Accounts, who: seq<Addr>, level: nat)
    requires Level(m, who, level) && who != []
    ensures HasLength(m, who[|who| - 1], level)
  {
    assert HasLength(m, who[|who| - 1], level);
  }

  /** One more step of a round. */
  lemma RoundStep(p: Accounts, m: Accounts, who: seq<Addr>, i: nat, level: nat)
    requires i < |who| && DistinctAddrs(who) && Level(p, who, level + 1) && Levelled(p, m, AddrSet(who[..i]), level)
    ensures var a := who[i];
      && a in m && |m[a].items| == level + 1
      && Levelled(p, m[a := Shortened(m[a], level)], AddrSet(who[..i + 1]), level)
      && Total(m[a := Shortened(m[a], level)]) == Total(m) - 1
  {
    assert HasLength(p, who[i], level + 1);
    assert AddrSet(who[..i + 1]) == AddrSet(who[..i]) + {who[i]};
    OneLevelled(p, m, AddrSet(who[..i]), level, who[i]);
  }

  /** A finished round. */
  lemma RoundEnds(p: Accounts, m: Accounts, who: seq<Addr>, level: nat)
    requires Level(p, who, level + 1) && Levelled(p, m, AddrSet(who[..|who|]), level)
    ensures AtLevel(p, m, who, level)
  {
    assert who[..|who|] == who;
    forall i | 0 <= i < |who|
      ensures HasLength(m, who[i], level)
    {
      assert HasLength(p, who[i], level + 1);
      assert LevelledAt(p, m, AddrSet(who), level, who[i]);
    }
  }

  lemma LevelIsSelf(p: Accounts, who: seq<Addr>, level: nat)
    requires Level(p, who, level)
    ensures AtLevel(p, p, who, level)
  {
    forall a
      ensures LevelledAt(p, p, AddrSet(who), level, a)
    {
      if a in who {
        var i :| 0 <= i < |who| && who[i] == a;
        assert HasLength(p, who[i], level);
      }
    }
  }

  /** Where the filling stands: the lists of `done` are cut to `level`, those of `left` are longer than
      `slots` but no longer than `level`, and while the total is `over` the limit all of `done` reach it. */
  ghost predicate Filling(p: Accounts, m: Accounts, left: set<Addr>, done: seq<Addr>, level: nat, slots: nat,
                          over: bool) {
    && Levelled(p, m, AddrSet(done), level) && DistinctAddrs(done)
    && (forall a :: a in left ==> a in p && slots < |p[a].items| && a !in done)
    && (forall a :: a in done ==> a in p && slots < |p[a].items|)
    && (done != [] ==> slots < level && forall a :: a in left ==> |p[a].items| <= level)
    && (over ==> forall a :: a in done ==> level <= |p[a].items|)
  }

  lemma FillingLevel(p: Accounts, m: Accounts, left: set<Addr>, done: seq<Addr>, level: nat, slots: nat, o: Addr)
    requires Filling(p, m, left, done, level, slots, true) && o in left
    ensures Level(m, done, level) && o in m && m[o] == p[o]
  {
    FilledLevel(p, m, left, done, level, slots);
    assert LevelledAt(p, m, AddrSet(done), level, o);
  }

  lemma FilledLevel(p: Accounts, m: Accounts, left: set<Addr>, done: seq<Addr>, level: nat, slots: nat)
    requires Filling(p, m, left, done, level, slots, true)
    ensures Level(m, done, level)
  {
    forall i | 0 <= i < |done|
      ensures HasLength(m, done[i], level)
    {
      assert done[i] in done;
      assert LevelledAt(p, m, AddrSet(done), level, done[i]);
    }
  }

  /** The longest list left joins; the first one to do so sets the level. */
  lemma FillFirst(p: Accounts, left: set<Addr>, o: Addr, slots: nat, level: nat)
    requires Filling(p, p, left, [], level, slots, true) && o in left
    requires forall a :: a in left ==> |p[a].items| <= |p[o].items|
    ensures Filling(p, p, left - {o}, [o], |p[o].items|, slots, true)
  {
    var n := |p[o].items|;
    forall a
      ensures LevelledAt(p, p, AddrSet([o]), n, a)
    {
    }
  }

  /** A later one joins after the others have been levelled to its length, or to where the total fits. */
  lemma FillNext(p: Accounts, m: Accounts, m': Accounts, left: set<Addr>, done: seq<Addr>, o: Addr, level: nat,
                 level': nat, slots: nat, over: bool)
    requires Filling(p, m, left, done, level, slots, true) && done != [] && o in left
    requires forall a :: a in left ==> |p[a].items| <= |p[o].items|
    requires Levelled(m, m', AddrSet(done), level') && |p[o].items| <= level' <= level
    requires over ==> level' == |p[o].items|
    ensures Filling(p, m', left - {o}, done + [o], level', slots, over)
  {
    LevelledAgain(p, m, m', AddrSet(done), level, level');
    assert AddrSet(done + [o]) == AddrSet(done) + {o};
    LevelledMore(p, m', AddrSet(done), AddrSet(done + [o]), level');
  }

  /** The last phase brings every list of `done` down further, together. */
  lemma FillDown(p: Accounts, m: Accounts, m': Accounts, done: seq<Addr>, level: nat, level': nat, slots: nat)
    requires Filling(p, m, {}, done, level, slots, true) && Levelled(m, m', AddrSet(done), level') && level' <= level
    ensures Levelled(p, m', AddrSet(done), level')
  {
    LevelledAgain(p, m, m', AddrSet(done), level, level');
  }

  lemma FillEnds(p: Accounts, m: Accounts, left: set<Addr>, done: seq<Addr>, level: nat, slots: nat, over: bool)
    requires Filling(p, m, left, done, level, slots, over) && (done == [] ==> left == {})
    ensures Levelled(p, m, AddrSet(done) + left, level)
  {
    LevelledMore(p, m, AddrSet(done), AddrSet(done) + left, level);
  }

  /** The accounts whose lists may be cut: not local and above their guaranteed slots. */
  function Spammers(m: Accounts, locals: set<Addr>, slots: nat): set<Addr> {
    set a | a in m && a !in locals && slots < |m[a].items|
  }

  lemma {:induction false} LongestExists(p: Accounts, left: set<Addr>)
    requires left != {} && left <= p.Keys
    ensures exists o :: o in left && forall a :: a in left ==> |p[a].items| <= |p[o].items|
    decreases |left|
  {
    var x :| x in left;
    var rest := left - {x};
    assert left == rest + {x};
    if rest == {} {
      assert forall a :: a in left ==> |p[a].items| <= |p[x].items|;
    } else {
      LongestExists(p, rest);
      var y :| y in rest && forall a :: a in rest ==> |p[a].items| <= |p[y].items|;
      var o := if |p[x].items| <= |p[y].items| then y else x;
      assert o in left;
      forall a | a in left
        ensures |p[a].items| <= |p[o].items|
      {
        assert a == x || a in rest;
      }
    }
  }

  lemma {:induction false} DistinctCount(s: seq<Addr>)
    requires DistinctAddrs(s)
    ensures |AddrSet(s)| == |s|
  {
    if s != [] {
      var n := |s| - 1;
      DistinctCount(s[..n]);
      assert s == s[..n] + [s[n]];
      assert AddrSet(s) == AddrSet(s[..n]) + {s[n]};
      assert s[n] !in s[..n];
    }
  }

  /** The accounts among `who` that a cut to `level` shortens. */
  ghost function CutBy(p: Accounts, who: set<Addr>, level: nat): set<Addr> {
    set a | a in who && a in p && level < |p[a].items|
  }

  /** A round that ends below the level where it began has shortened every list it went over. */
  lemma AllCut(p: Accounts, done: seq<Addr>, more: set<Addr>, level: nat)
    requires DistinctAddrs(done) && AddrSet(done) <= more
    requires forall a :: a in done ==> a in p && level < |p[a].items|
    ensures |done| <= |CutBy(p, more, level)|
  {
    DistinctCount(done);
    SubsetSize(AddrSet(done), CutBy(p, more, level));
  }

  /** The state of the filling loop. */
  ghost predicate FillState(p: Accounts, m: Accounts, spammers: set<Addr>, left: set<Addr>, done: seq<Addr>, level: nat,
                            slots: nat, limit: nat, total: nat) {
    && Filling(p, m, left, done, level, slots, total > limit)
    && AddrSet(done) + left == spammers
    && (done == [] ==> m == p && total > limit)
    && total == Total(m) && total + |CutBy(p, AddrSet(done), level)| > limit
  }

  lemma FillStarts(p: Accounts, locals: set<Addr>, slots: nat, limit: nat, total: nat)
    requires total == Total(p) && total > limit
    ensures FillState(p, p, Spammers(p, locals, slots), Spammers(p, locals, slots), [], slots, slots, limit, total)
  {
    NoneLevelled(p, slots);
    assert AddrSet([]) == {};
  }

  lemma FillSteps(p: Accounts, m: Accounts, m': Accounts, spammers: set<Addr>, left: set<Addr>, done: seq<Addr>,
                  o: Addr, level: nat, level': nat, slots: nat, limit: nat, total: nat, total': nat)
    requires FillState(p, m, spammers, left, done, level, slots, limit, total) && o in left
    requires Filling(p, m', left - {o}, done + [o], level', slots, total' > limit)
    requires total' == Total(m') && total' + |CutBy(p, AddrSet(done + [o]), level')| > limit
    ensures FillState(p, m', spammers, left - {o}, done + [o], level', slots, limit, total')
  {
    assert AddrSet(done + [o]) == AddrSet(done) + {o};
  }

  /** What the filling loop and the last phase leave behind. */
  lemma FillResult(p: Accounts, m: Accounts, spammers: set<Addr>, left: set<Addr>, done: seq<Addr>, level: nat,
                   slots: nat, limit: nat, total: nat)
    requires FillState(p, m, spammers, left, done, level, slots, limit, total)
    requires total <= limit || (left == {} && done == [])
    ensures Levelled(p, m, spammers, if done == [] then slots else level)
    ensures done != [] ==> slots < level
    ensures total + |CutBy(p, spammers, if done == [] then slots else level)| > limit
  {
    if done == [] {
      assert AddrSet(done) == {};
      NoneLevelled(p, slots);
    } else {
      FillEnds(p, m, left, done, level, slots, total > limit);
    }
    SubsetSize(CutBy(p, AddrSet(done), level), CutBy(p, spammers, level));
  }

  /** Levelling down to the guaranteed slots leaves no account above them. */
  lemma NoSpammers(p: Accounts, m: Accounts, locals: set<Addr>, slots: nat, level: nat)
    requires Levelled(p, m, Spammers(p, locals, slots), level)
    ensures level == slots ==> Spammers(m, locals, slots) == {}
  {
    if level == slots {
      forall a
        ensures a !in Spammers(m, locals, slots)
      {
        assert LevelledAt(p, m, Spammers(p, locals, slots), level, a);
      }
    }
  }

  /** The accounts of a map, in some order. */
  method ListKeys(m: Accounts) returns (s: seq<Addr>)
    ensures DistinctAddrs(s) && forall a :: a in s <==> a in m
  {
    s := [];
    var todo := m.Keys;
    while todo != {}
      invariant todo <= m.Keys && DistinctAddrs(s) && forall a :: a in s <==> a in m && a !in todo
      decreases todo
    {
      var a :| a in todo;
      s, todo := s + [a], todo - {a};
    }
  }

  /** Levelling or leaving alone shortens each list to its lowest nonces. */
  lemma PendingShortened(p: Accounts, m: Accounts, who: set<Addr>, level: nat, a: Addr) returns (n: nat)
    requires m == p || Levelled(p, m, who, level)
    ensures ItemsOf(m, a) == Lowest(ItemsOf(p, a), n)
  {
    n := |ItemsOf(p, a)|;
    if m != p {
      assert LevelledAt(p, m, who, level, a);
      n := if a in p && a in who then level else n;
    }
  }
}
