/** The pool's views of one set of transactions, as values: per-account pending and queued lists and
    the set of all known transactions, what makes them consistent and which changes keep them so. */
module PoolViews {
  import opened Transactions
  import opened TxLists

  type Accounts = map<Addr, TxListValue>

  /** The list of an account, or the empty one the pool creates on first use. */
  function ListOf(m: Accounts, a: Addr, strict: bool): TxListValue {
    if a in m then m[a] else TxListValue(strict, map[], 0, 0)
  }

  function ItemsOf(m: Accounts, a: Addr): Items {
    if a in m then m[a].items else map[]
  }

  /** Stores a list, or deletes the account's entry when the list is empty. */
  function With(m: Accounts, a: Addr, l: TxListValue): Accounts {
    if l.items == map[] then m - {a} else m[a := l]
  }

  ghost predicate OwnedBy(m: Items, a: Addr) {
    forall k :: k in m ==> m[k].from == a && m[k].size > 0
  }

  ghost predicate ListOk(l: TxListValue, strict: bool, a: Addr) {
    l.strict == strict && WellFormed(l) && OwnedBy(l.items, a)
  }

  /** No account is mapped to an empty list. */
  ghost predicate NonEmptyAt(m: Accounts, a: Addr) {
    a in m ==> m[a].items != map[]
  }

  /** The lists of one account are in order, share no nonce, and hold exactly its share of `txs`. */
  ghost predicate AccountOk(p: Accounts, q: Accounts, txs: set<Tx>, a: Addr) {
    && (a in p ==> ListOk(p[a], true, a)) && NonEmptyAt(p, a)
    && (a in q ==> ListOk(q[a], false, a)) && NonEmptyAt(q, a)
    && ItemsOf(p, a).Keys !! ItemsOf(q, a).Keys
    && forall tx: Tx :: tx.from == a ==> (tx in txs <==> Holds(ItemsOf(p, a), tx) || Holds(ItemsOf(q, a), tx))
  }

  /** The invariant over all views. It is stated account by account so that a proof sees only the
      accounts it names. */
  ghost predicate Consistent(p: Accounts, q: Accounts, txs: set<Tx>) {
    forall a :: AccountOk(p, q, txs, a)
  }

  /** In consistent views the known transactions are exactly the pending and the queued ones, each filed
      under its sender and nonce, no nonce of an account is both pending and queued, and no list is empty. */
  lemma ConsistentViews(p: Accounts, q: Accounts, txs: set<Tx>)
    requires Consistent(p, q, txs)
    ensures forall tx :: tx in txs <==> Holds(ItemsOf(p, tx.from), tx) || Holds(ItemsOf(q, tx.from), tx)
    ensures forall a :: a in p ==> ListOk(p[a], true, a) && p[a].items != map[]
    ensures forall a :: a in q ==> ListOk(q[a], false, a) && q[a].items != map[]
    ensures forall a, k :: a in p && a in q && k in p[a].items ==> k !in q[a].items
  {
    forall tx
      ensures tx in txs <==> Holds(ItemsOf(p, tx.from), tx) || Holds(ItemsOf(q, tx.from), tx)
    {
      assert AccountOk(p, q, txs, tx.from);
    }
    forall a | a in p || a in q
      ensures a in p ==> ListOk(p[a], true, a) && p[a].items != map[]
      ensures a in q ==> ListOk(q[a], false, a) && q[a].items != map[]
      ensures a in p && a in q ==> forall k :: k in p[a].items ==> k !in q[a].items
    {
      assert AccountOk(p, q, txs, a);
    }
  }

  /** `m` and `m'` differ at most in account `a`. */
  ghost predicate SameElsewhere(m: Accounts, m': Accounts, a: Addr) {
    m - {a} == m' - {a}
  }

  lemma ElsewhereFacts(m: Accounts, m': Accounts, a: Addr, b: Addr)
    requires SameElsewhere(m, m', a) && a != b
    ensures b in m <==> b in m'
    ensures b in m ==> m[b] == m'[b]
    ensures ItemsOf(m, b) == ItemsOf(m', b)
  {
    assert b in m <==> b in m - {a};
    assert b in m' <==> b in m' - {a};
    if b in m {
      assert m[b] == (m - {a})[b] == (m' - {a})[b] == m'[b];
    }
  }

  lemma WithFacts(m: Accounts, a: Addr, l: TxListValue)
    ensures SameElsewhere(m, With(m, a, l), a)
    ensures ItemsOf(With(m, a, l), a) == l.items
    ensures a in With(m, a, l) ==> With(m, a, l)[a] == l && l.items != map[]
    ensures a !in With(m, a, l) ==> l.items == map[]
    ensures forall b :: b != a ==> ItemsOf(With(m, a, l), b) == ItemsOf(m, b) && (b in With(m, a, l) <==> b in m)
  {
  }

  lemma ListsAreOk(p: Accounts, q: Accounts, txs: set<Tx>, a: Addr)
    requires Consistent(p, q, txs)
    ensures a in p ==> ListOk(p[a], true, a)
    ensures a in q ==> ListOk(q[a], false, a)
    ensures NonEmptyAt(p, a) && NonEmptyAt(q, a)
  {
    assert AccountOk(p, q, txs, a);
  }

  /** A change to one account keeps the views consistent if it does so for that account. */
  lemma AccountChange(p: Accounts, q: Accounts, txs: set<Tx>, a: Addr,
                      pl: TxListValue, ql: TxListValue, txs': set<Tx>)
    requires Consistent(p, q, txs)
    requires ListOk(pl, true, a) && ListOk(ql, false, a) && pl.items.Keys !! ql.items.Keys
    requires forall tx: Tx :: tx.from == a ==> (tx in txs' <==> Holds(pl.items, tx) || Holds(ql.items, tx))
    requires forall tx: Tx :: tx.from != a ==> (tx in txs' <==> tx in txs)
    ensures Consistent(With(p, a, pl), With(q, a, ql), txs')
  {
    var p', q' := With(p, a, pl), With(q, a, ql);
    WithFacts(p, a, pl);
    WithFacts(q, a, ql);
    forall b
      ensures AccountOk(p', q', txs', b)
    {
      assert AccountOk(p, q, txs, b);
    }
  }

  lemma OwnLists(p: Accounts, q: Accounts, txs: set<Tx>, a: Addr)
    requires Consistent(p, q, txs)
    ensures ListOk(ListOf(p, a, true), true, a) && ListOk(ListOf(q, a, false), false, a)
    ensures ListOf(p, a, true).items == ItemsOf(p, a) && ListOf(q, a, false).items == ItemsOf(q, a)
    ensures ItemsOf(p, a).Keys !! ItemsOf(q, a).Keys
    ensures forall tx: Tx :: tx.from == a ==> (tx in txs <==> Holds(ItemsOf(p, a), tx) || Holds(ItemsOf(q, a), tx))
  {
    assert AccountOk(p, q, txs, a);
  }

  /** Adding a sequence of transactions one by one. */
  function AddAll(l: TxListValue, s: seq<Tx>): TxListValue {
    if s == [] then l else Added(AddAll(l, s[..|s| - 1]), s[|s| - 1])
  }

  lemma {:induction false} AddAllStep(l: TxListValue, s: seq<Tx>, i: nat)
    requires i < |s|
    ensures AddAll(l, s[..i + 1]) == Added(AddAll(l, s[..i]), s[i])
  {
    assert s[..i + 1][..i] == s[..i];
  }

  lemma AddedIsOk(l: TxListValue, tx: Tx, strict: bool, a: Addr)
    requires ListOk(l, strict, a) && tx.from == a && tx.size > 0
    ensures ListOk(Added(l, tx), strict, a)
  {
  }

  ghost predicate AllIn(s: seq<Tx>, a: Addr) {
    forall i :: 0 <= i < |s| ==> s[i].from == a && s[i].size > 0
  }

  ghost predicate DistinctIn(s: seq<Tx>) {
    forall i, j :: 0 <= i < j < |s| ==> s[i].nonce != s[j].nonce
  }

  lemma {:induction false} AddAllIsOk(l: TxListValue, s: seq<Tx>, strict: bool, a: Addr)
    requires ListOk(l, strict, a) && AllIn(s, a)
    ensures ListOk(AddAll(l, s), strict, a)
  {
    if s != [] {
      AddAllIsOk(l, s[..|s| - 1], strict, a);
      AddedIsOk(AddAll(l, s[..|s| - 1]), s[|s| - 1], strict, a);
    }
  }

  /** Adding a listing of fresh nonces adds exactly its entries. */
  lemma {:induction false} AddAllItems(l: TxListValue, s: seq<Tx>)
    requires DistinctIn(s)
    ensures forall k :: k in AddAll(l, s).items <==> k in l.items || k in Nonces(s)
    ensures forall k :: k in l.items && k !in Nonces(s) ==> AddAll(l, s).items[k] == l.items[k]
    ensures forall i :: 0 <= i < |s| ==> Holds(AddAll(l, s).items, s[i])
  {
    if s != [] {
      var t, last := s[..|s| - 1], s[|s| - 1];
      AddAllItems(l, t);
      assert forall i :: 0 <= i < |t| ==> s[i] == t[i];
      assert Nonces(s) == Nonces(t) + {last.nonce};
      assert last.nonce !in Nonces(t);
      assert AddAll(l, s).items == AddAll(l, t).items[last.nonce := last];
    }
  }

  lemma FreshStep(l: TxListValue, s: seq<Tx>, i: nat)
    requires i < |s| && DistinctIn(s) && s[i].nonce !in l.items
    ensures s[i].nonce !in AddAll(l, s[..i]).items
    ensures AddAll(l, s[..i + 1]) == Added(AddAll(l, s[..i]), s[i])
  {
    AddAllItems(l, s[..i]);
    AddAllStep(l, s, i);
    assert s[i].nonce !in Nonces(s[..i]);
  }

  lemma WithStep(m: Accounts, a: Addr, l: TxListValue, tx: Tx)
    ensures With(m, a, l)[a := Added(l, tx)] == With(m, a, Added(l, tx))
  {
    assert tx.nonce in Added(l, tx).items;
  }

  lemma ListingFacts(m: Items, txs: seq<Tx>)
    requires Filed(m) && Lists(txs, m)
    ensures DistinctIn(txs) && (forall j :: 0 <= j < |txs| ==> Holds(m, txs[j])) && Nonces(txs) == m.Keys
  {
    DistinctNonces(txs, m);
    forall j | 0 <= j < |txs|
      ensures Holds(m, txs[j])
    {
      assert txs[j] in txs;
    }
    forall k
      ensures k in Nonces(txs) <==> k in m
    {
      if k in m {
        assert Holds(m, m[k]);
      }
    }
  }

  lemma UnionIs(r: Items, m0: Items, m: Items, s: seq<Tx>)
    requires forall k :: k in r <==> k in m0 || k in m
    requires forall k :: k in m0 && k !in m ==> r[k] == m0[k]
    requires Filed(m) && Lists(s, m) && forall i :: 0 <= i < |s| ==> Holds(r, s[i])
    ensures r == m0 + m
  {
    forall k | k in m
      ensures r[k] == m[k]
    {
      assert Holds(m, m[k]);
      var i :| 0 <= i < |s| && s[i] == m[k];
      assert Holds(r, s[i]);
    }
  }

  lemma AddAllUnion(l: TxListValue, s: seq<Tx>, m: Items)
    requires Filed(m) && Lists(s, m) && m.Keys !! l.items.Keys
    ensures AddAll(l, s).items == l.items + m
  {
    ListingFacts(m, s);
    AddAllItems(l, s);
    UnionIs(AddAll(l, s).items, l.items, m, s);
  }

  lemma WithSame(m: Accounts, a: Addr, strict: bool)
    requires NonEmptyAt(m, a)
    ensures With(m, a, ListOf(m, a, strict)) == m
  {
    assert a !in m ==> m - {a} == m;
  }

  /** The re-queued part of a list is fresh in the queue of its account. */
  lemma RequeueFacts(p: Accounts, q: Accounts, txs: set<Tx>, a: Addr, part: Items, s: seq<Tx>)
    requires Consistent(p, q, txs) && SubItems(part, ItemsOf(p, a)) && Lists(s, part)
    ensures AllIn(s, a) && DistinctIn(s)
    ensures forall i :: 0 <= i < |s| ==> s[i].nonce !in ItemsOf(q, a)
    ensures AddAll(ListOf(q, a, false), s).items == ItemsOf(q, a) + part
    ensures ListOk(AddAll(ListOf(q, a, false), s), false, a)
  {
    OwnLists(p, q, txs, a);
    assert Filed(part);
    forall i | 0 <= i < |s|
      ensures s[i].from == a && s[i].size > 0 && s[i].nonce in ItemsOf(p, a)
    {
      assert s[i] in s;
      assert Holds(part, s[i]);
    }
    DistinctNonces(s, part);
    AddAllUnion(ListOf(q, a, false), s, part);
    AddAllIsOk(ListOf(q, a, false), s, false, a);
  }

  lemma RequeueReady(p: Accounts, q: Accounts, txs: set<Tx>, a: Addr, part: Items, s: seq<Tx>)
    requires Consistent(p, q, txs) && SubItems(part, ItemsOf(p, a)) && Lists(s, part)
    ensures AllIn(s, a) && DistinctIn(s)
    ensures forall i :: 0 <= i < |s| ==> s[i].nonce !in ItemsOf(q, a)
  {
    RequeueFacts(p, q, txs, a, part, s);
  }

  lemma SubListOk(l: TxListValue, m: Items, strict: bool, a: Addr)
    requires ListOk(l, strict, a) && SubItems(m, l.items)
    ensures ListOk(l.(items := m), strict, a)
  {
  }

  /** Moving part of a pending list back to the queue and dropping another part for good. */
  lemma Requeue(p: Accounts, q: Accounts, txs: set<Tx>, a: Addr, pl: TxListValue,
                back: Items, ql: TxListValue, gone: set<Tx>)
    requires Consistent(p, q, txs)
    requires ListOk(pl, true, a) && SubItems(pl.items, ItemsOf(p, a)) && SubItems(back, ItemsOf(p, a))
    requires pl.items.Keys !! back.Keys
    requires ListOk(ql, false, a) && ql.items == ItemsOf(q, a) + back
    requires forall tx :: tx in gone <==> Holds(ItemsOf(p, a), tx) && tx.nonce !in pl.items && tx.nonce !in back
    ensures Consistent(With(p, a, pl), With(q, a, ql), txs - gone)
  {
    OwnLists(p, q, txs, a);
    var P, Q := ItemsOf(p, a), ItemsOf(q, a);
    forall tx: Tx | tx.from == a
      ensures tx in txs - gone <==> Holds(pl.items, tx) || Holds(ql.items, tx)
    {
      assert tx in txs <==> Holds(P, tx) || Holds(Q, tx);
    }
    forall tx: Tx | tx.from != a
      ensures tx in txs - gone <==> tx in txs
    {
      assert forall k :: k in P ==> P[k].from == a;
    }
    AccountChange(p, q, txs, a, pl, ql, txs - gone);
  }

  /** Dropping entries from a queue. */
  lemma Unqueue(p: Accounts, q: Accounts, txs: set<Tx>, a: Addr, ql: TxListValue, gone: set<Tx>)
    requires Consistent(p, q, txs)
    requires ListOk(ql, false, a) && SubItems(ql.items, ItemsOf(q, a))
    requires forall tx :: tx in gone <==> Holds(ItemsOf(q, a), tx) && tx.nonce !in ql.items
    ensures Consistent(p, With(q, a, ql), txs - gone)
  {
    OwnLists(p, q, txs, a);
    var P, Q := ItemsOf(p, a), ItemsOf(q, a);
    ListsAreOk(p, q, txs, a);
    WithSame(p, a, true);
    forall tx: Tx | tx.from == a
      ensures tx in txs - gone <==> Holds(P, tx) || Holds(ql.items, tx)
    {
      assert tx in txs <==> Holds(P, tx) || Holds(Q, tx);
    }
    forall tx: Tx | tx.from != a
      ensures tx in txs - gone <==> tx in txs
    {
      assert forall k :: k in Q ==> Q[k].from == a;
    }
    AccountChange(p, q, txs, a, ListOf(p, a, true), ql, txs - gone);
  }

  /** The transactions replaced when `tx` enters a list. */
  function Outbid(m: Items, tx: Tx): set<Tx> {
    if tx.nonce in m then {m[tx.nonce]} else {}
  }

  /** Replacing a pending transaction, or entering the queue with a nonce that is not pending. */
  lemma Enter(p: Accounts, q: Accounts, txs: set<Tx>, tx: Tx, toPending: bool)
    requires Consistent(p, q, txs) && tx !in txs && tx.size > 0
    requires toPending == (tx.nonce in ItemsOf(p, tx.from))
    ensures var a := tx.from;
      var l := if toPending then ListOf(p, a, true) else ListOf(q, a, false);
      var txs' := txs - Outbid(l.items, tx) + {tx};
      if toPending then Consistent(p[a := Added(l, tx)], q, txs') else Consistent(p, q[a := Added(l, tx)], txs')
  {
    var a := tx.from;
    OwnLists(p, q, txs, a);
    ListsAreOk(p, q, txs, a);
    WithSame(p, a, true);
    WithSame(q, a, false);
    var P, Q := ListOf(p, a, true), ListOf(q, a, false);
    var l := if toPending then P else Q;
    var pl, ql := if toPending then Added(P, tx) else P, if toPending then Q else Added(Q, tx);
    var txs' := txs - Outbid(l.items, tx) + {tx};
    AddedIsOk(l, tx, toPending, a);
    forall t: Tx | t.from == a
      ensures t in txs' <==> Holds(pl.items, t) || Holds(ql.items, t)
    {
      assert t in txs <==> Holds(P.items, t) || Holds(Q.items, t);
    }
    forall t: Tx | t.from != a
      ensures t in txs' <==> t in txs
    {
      assert forall k :: k in l.items ==> l.items[k].from == a;
    }
    assert tx.nonce in Added(l, tx).items;
    AccountChange(p, q, txs, a, pl, ql, txs');
  }

  lemma PooledFacts(p: Accounts, q: Accounts, txs: set<Tx>, tx: Tx)
    requires Consistent(p, q, txs) && tx in txs
    ensures tx.size > 0
  {
    OwnLists(p, q, txs, tx.from);
  }
}
