/** Transactions and nonce-indexed collections of them. A transaction stands for its own hash:
    hashes are taken to be collision free, and the sender is the one its signature recovers to. */
module Transactions {
  type Addr = nat

  datatype Tx = Tx(from: Addr, nonce: nat, price: nat, gas: nat, value: nat, size: nat, payload: nat) {
    function Cost(): nat {
      value + price * gas
    }
  }

  type Items = map<nat, Tx>

  /** Every entry is filed under its own nonce. */
  ghost predicate Filed(m: Items) {
    forall k :: k in m ==> m[k].nonce == k
  }

  ghost predicate Holds(m: Items, tx: Tx) {
    tx.nonce in m && m[tx.nonce] == tx
  }

  function Below(m: Items, n: nat): Items {
    map k | k in m && k < n :: m[k]
  }

  function AtLeast(m: Items, n: nat): Items {
    map k | k in m && k >= n :: m[k]
  }

  function Above(m: Items, n: nat): Items {
    map k | k in m && k > n :: m[k]
  }

  lemma {:induction false} LeastOf(s: set<nat>) returns (l: nat)
    requires s != {}
    ensures l in s && forall j :: j in s ==> l <= j
  {
    var k :| k in s;
    var rest := s - {k};
    l := k;
    if rest != {} {
      var r := LeastOf(rest);
      l := if k <= r then k else r;
    }
    forall j | j in s
      ensures l <= j
    {
      assert j == k || j in rest;
    }
  }

  lemma LeastExists(s: set<nat>)
    requires s != {}
    ensures exists k :: k in s && forall j :: j in s ==> k <= j
  {
    var k := LeastOf(s);
  }

  lemma {:induction false} GreatestOf(s: set<nat>) returns (l: nat)
    requires s != {}
    ensures l in s && forall j :: j in s ==> j <= l
  {
    var k :| k in s;
    var rest := s - {k};
    l := k;
    if rest != {} {
      var r := GreatestOf(rest);
      l := if r <= k then k else r;
    }
    forall j | j in s
      ensures j <= l
    {
      assert j == k || j in rest;
    }
  }

  lemma GreatestExists(s: set<nat>)
    requires s != {}
    ensures exists k :: k in s && forall j :: j in s ==> j <= k
  {
    var k := GreatestOf(s);
  }

  function Least(s: set<nat>): (k: nat)
    requires s != {}
    ensures k in s && forall j :: j in s ==> k <= j
  {
    LeastExists(s);
    var k :| k in s && forall j :: j in s ==> k <= j;
    k
  }

  function Greatest(s: set<nat>): (k: nat)
    requires s != {}
    ensures k in s && forall j :: j in s ==> j <= k
  {
    GreatestExists(s);
    var k :| k in s && forall j :: j in s ==> j <= k;
    k
  }

  /** The entries with the `n` lowest nonces. */
  function Lowest(m: Items, n: nat): (r: Items)
    ensures |r| == if |m| <= n then |m| else n
    decreases |m|
  {
    if |m| <= n then m else
      assert m.Keys != {};
      var top := Greatest(m.Keys);
      assert m.Keys == (m - {top}).Keys + {top};
      Lowest(m - {top}, n)
  }

  ghost predicate SubItems(part: Items, m: Items) {
    forall k :: k in part ==> k in m && part[k] == m[k]
  }

  /** Every nonce kept is below every nonce dropped. */
  lemma {:induction false} LowestSplits(m: Items, n: nat)
    ensures SubItems(Lowest(m, n), m)
    ensures forall k, j :: k in Lowest(m, n) && j in m && j !in Lowest(m, n) ==> k < j
    decreases |m|
  {
    if |m| > n {
      assert m.Keys != {};
      var top := Greatest(m.Keys);
      assert m.Keys == (m - {top}).Keys + {top};
      LowestSplits(m - {top}, n);
    }
  }

  /** The first nonce at or after `n` that is missing from `keys`. */
  function RunEnd(keys: set<nat>, n: nat): (e: nat)
    ensures n <= e && e !in keys
    ensures forall k :: n <= k < e ==> k in keys
    decreases |keys|
  {
    if n !in keys then n else
      var rest := keys - {n};
      var e := RunEnd(rest, n + 1);
      assert forall k :: k in rest ==> k in keys;
      e
  }

  /** A gapless set of nonces starting at `lo`. */
  ghost predicate Interval(keys: set<nat>, lo: nat, hi: nat) {
    forall k :: k in keys <==> lo <= k < hi
  }

  /** No nonce is missing between two present ones. */
  ghost predicate Gapless(keys: set<nat>) {
    forall i, j, k :: i in keys && j in keys && i <= k <= j ==> k in keys
  }

  /** `s` lists the entries of `m`, each once, in any order. */
  ghost predicate Lists(s: seq<Tx>, m: Items) {
    |s| == |m| && forall tx :: tx in s <==> Holds(m, tx)
  }

  ghost predicate Ascending(s: seq<Tx>) {
    forall i, j :: 0 <= i < j < |s| ==> s[i].nonce < s[j].nonce
  }

  /** The entries of `m` in nonce order. */
  function Flatten(m: Items): (s: seq<Tx>)
    decreases |m|
  {
    if m == map[] then [] else
      assert m.Keys != {};
      var k := Least(m.Keys);
      assert m.Keys == (m - {k}).Keys + {k};
      [m[k]] + Flatten(m - {k})
  }

  lemma {:induction false} FlattenLists(m: Items)
    requires Filed(m)
    ensures Lists(Flatten(m), m) && Ascending(Flatten(m))
    decreases |m|
  {
    if m != map[] {
      assert m.Keys != {};
      var k := Least(m.Keys);
      var rest := m - {k};
      assert m.Keys == rest.Keys + {k};
      FlattenLists(rest);
      forall tx
        ensures Holds(m, tx) <==> tx == m[k] || Holds(rest, tx)
      {
      }
      var t := Flatten(rest);
      forall i | 0 <= i < |t|
        ensures k < t[i].nonce
      {
        assert t[i] in t;
      }
    }
  }

  lemma {:induction false} FlattenIsUnique(s: seq<Tx>, m: Items)
    requires Filed(m) && Ascending(s)
    requires forall tx :: tx in s <==> Holds(m, tx)
    ensures s == Flatten(m)
    decreases |m|
  {
    if m == map[] {
      assert forall i :: 0 <= i < |s| ==> s[i] in s;
    } else {
      assert m.Keys != {};
      var k := Least(m.Keys);
      var rest := m - {k};
      assert m.Keys == rest.Keys + {k};
      HeadIsLeast(s, m, k);
      FlattenIsUnique(s[1..], rest);
      assert s == [s[0]] + s[1..];
    }
  }

  lemma HeadIsLeast(s: seq<Tx>, m: Items, k: nat)
    requires Filed(m) && Ascending(s) && k in m && forall j :: j in m ==> k <= j
    requires forall tx :: tx in s <==> Holds(m, tx)
    ensures s != [] && s[0] == m[k]
    ensures forall tx :: tx in s[1..] <==> Holds(m - {k}, tx)
  {
    assert Holds(m, m[k]);
    assert Holds(m, s[0]);
    var t := s[1..];
    forall tx
      ensures tx in t <==> Holds(m - {k}, tx)
    {
      assert tx in t ==> s[0].nonce < tx.nonce;
      assert tx in s <==> tx == s[0] || tx in t;
    }
  }

  function Keep(m: Items, drop: Tx -> bool): Items {
    map k | k in m && !drop(m[k]) :: m[k]
  }

  function Dropped(m: Items, drop: Tx -> bool): Items {
    map k | k in m && drop(m[k]) :: m[k]
  }

  /** The maximal run of consecutive nonces from the lowest one, provided that is at most `start`. */
  function Run(m: Items, start: nat): Items {
    if m.Keys == {} || Least(m.Keys) > start then map[] else Below(m, RunEnd(m.Keys, Least(m.Keys)))
  }

  lemma {:induction false} RunEndIs(keys: set<nat>, lo: nat, hi: nat)
    requires lo <= hi && hi !in keys && forall k :: lo <= k < hi ==> k in keys
    ensures RunEnd(keys, lo) == hi
  {
    var e := RunEnd(keys, lo);
    assert e < hi ==> e in keys;
    assert hi < e ==> hi in keys;
  }

  /** Nonce order of two collections, one wholly below the other, is one after the other. */
  lemma {:induction false} FlattenJoins(low: Items, high: Items, m: Items)
    requires Filed(m) && m == low + high && low.Keys !! high.Keys
    requires forall i, j :: i in low && j in high ==> i < j
    ensures Flatten(m) == Flatten(low) + Flatten(high)
  {
    assert Filed(low) by {
      forall k | k in low ensures low[k].nonce == k { assert m[k] == low[k]; }
    }
    assert Filed(high) by {
      forall k | k in high ensures high[k].nonce == k { assert m[k] == high[k]; }
    }
    FlattenLists(low);
    FlattenLists(high);
    var s, t := Flatten(low), Flatten(high);
    var both := s + t;
    forall i, j | 0 <= i < j < |both|
      ensures both[i].nonce < both[j].nonce
    {
      if i < |s| <= j {
        assert s[i] in s && t[j - |s|] in t;
        assert Holds(low, s[i]) && Holds(high, t[j - |s|]);
      }
    }
    forall tx
      ensures tx in both <==> Holds(m, tx)
    {
      assert Holds(m, tx) <==> Holds(low, tx) || Holds(high, tx);
    }
    FlattenIsUnique(both, m);
  }

  lemma ListsOneMore(s: seq<Tx>, m: Items, tx: Tx)
    requires Lists(s, m) && tx.nonce !in m
    ensures Lists(s + [tx], m[tx.nonce := tx])
  {
    var m' := m[tx.nonce := tx];
    assert m'.Keys == m.Keys + {tx.nonce};
    forall t
      ensures t in s + [tx] <==> Holds(m', t)
    {
      assert t in s + [tx] <==> t in s || t == tx;
      assert Holds(m', t) <==> Holds(m, t) || t == tx;
    }
  }

  /** Moving the lowest nonce at or above `bound` from the upper part to the end of the lower one. */
  lemma {:induction false} MoveLowest(m: Items, bound: nat, nonce: nat)
    requires Filed(m) && AtLeast(m, bound).Keys != {} && nonce == Least(AtLeast(m, bound).Keys)
    ensures bound <= nonce && nonce in m
    ensures AtLeast(m, nonce + 1) == AtLeast(m, bound) - {nonce}
    ensures Flatten(Below(m, nonce + 1)) == Flatten(Below(m, bound)) + [m[nonce]]
  {
    assert forall k :: k in m && bound <= k ==> k in AtLeast(m, bound);
    var low, one := Below(m, bound), map[nonce := m[nonce]];
    assert Below(m, nonce + 1) == low + one;
    FlattenJoins(low, one, low + one);
    FlattenIsUnique([m[nonce]], one);
  }

  lemma SplitsAgree(m: Items, a: nat, b: nat)
    requires a <= b && AtLeast(m, a) == AtLeast(m, b)
    ensures Below(m, a) == Below(m, b)
  {
    assert forall k :: k in m && a <= k ==> k in AtLeast(m, a);
  }

  /** One more entry visited by a filtering loop; `todo` are the nonces not visited yet. */
  lemma VisitOne(m: Items, todo: set<nat>, nonce: nat, drop: Tx -> bool)
    requires nonce in todo && nonce in m
    ensures nonce !in Dropped(m - todo, drop)
    ensures Dropped(m - (todo - {nonce}), drop)
         == if drop(m[nonce]) then Dropped(m - todo, drop)[nonce := m[nonce]] else Dropped(m - todo, drop)
  {
  }

  lemma KeepIsTheRest(m: Items, drop: Tx -> bool)
    ensures m - Dropped(m, drop).Keys == Keep(m, drop)
    ensures Dropped(m - {}, drop) == Dropped(m, drop)
  {
    assert m - {} == m;
  }

  ghost function Nonces(s: seq<Tx>): set<nat> {
    set i | 0 <= i < |s| :: s[i].nonce
  }

  lemma {:induction false} FewNonces(s: seq<Tx>)
    ensures |Nonces(s)| <= |s|
  {
    if s == [] {
    } else {
      var t := s[..|s| - 1];
      FewNonces(t);
      assert Nonces(s) == Nonces(t) + {s[|s| - 1].nonce};
    }
  }

  /** A listing has no entry twice. */
  lemma {:induction false} DistinctNonces(s: seq<Tx>, m: Items)
    requires Filed(m) && Lists(s, m)
    ensures forall i, j :: 0 <= i < j < |s| ==> s[i].nonce != s[j].nonce
  {
    forall i, j | 0 <= i < j < |s|
      ensures s[i].nonce != s[j].nonce
    {
      if s[i].nonce == s[j].nonce {
        var t := s[..j] + s[j + 1..];
        forall k | k in m
          ensures k in Nonces(t)
        {
          assert Holds(m, m[k]);
          var l :| 0 <= l < |s| && s[l] == m[k];
          var l' := if l == j then i else l;
          assert s[l'].nonce == k;
          assert t[if l' < j then l' else l' - 1] == s[l'];
        }
        assert m.Keys <= Nonces(t);
        FewNonces(t);
        SubsetSize(m.Keys, Nonces(t));
        assert false;
      }
    }
  }

  ghost function AsSet(s: seq<Tx>): set<Tx> {
    set tx | tx in s
  }

  lemma AsSetJoins(s: seq<Tx>, t: seq<Tx>)
    ensures AsSet(s + t) == AsSet(s) + AsSet(t)
  {
  }

  lemma {:induction false} SubsetSize<T>(a: set<T>, b: set<T>)
    requires a <= b
    ensures |a| <= |b|
  {
    if a == {} {
    } else {
      var x :| x in a;
      SubsetSize(a - {x}, b - {x});
    }
  }
}
