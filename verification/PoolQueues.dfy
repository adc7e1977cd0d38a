/** Truncating queues: removing listed transactions, cutting from the top, and whom it concerns. */
module PoolQueues {
  import opened Options
  import opened Transactions
  import opened TxLists
  import opened PoolViews
  import opened PoolTruncation
  import SortedMaps
  import Heaps

  /** An account and the time of its last activity. */
  datatype Beat = Beat(address: Addr, heartbeat: nat)

  function BeatOf(beats: map<Addr, nat>, a: Addr): nat {
    if a in beats then beats[a] else 0
  }

  function BeatLe(a: Beat, b: Beat): bool {
    a.heartbeat <= b.heartbeat
  }

  function Without(l: TxListValue, gone: set<nat>): TxListValue {
    l.(items := l.items - gone)
  }

  /** One more transaction of `txs` leaves the queue of `a`. */
  lemma QueueStep(q: Accounts, a: Addr, l: TxListValue, txs: seq<Tx>, i: nat)
    requires i < |txs| && DistinctIn(txs) && forall j :: 0 <= j < |txs| ==> Holds(l.items, txs[j])
    ensures var m := Without(l, Nonces(txs[..i]));
      && Holds(m.items, txs[i])
      && With(q, a, m) == q[a := m]
      && With(With(q, a, m), a, Without(m, {txs[i].nonce})) == With(q, a, Without(l, Nonces(txs[..i + 1])))
  {
    assert Nonces(txs[..i + 1]) == Nonces(txs[..i]) + {txs[i].nonce};
    assert txs[i].nonce !in Nonces(txs[..i]);
    var m := Without(l, Nonces(txs[..i]));
    assert txs[i].nonce in m.items;
    assert m.items - {txs[i].nonce} == l.items - Nonces(txs[..i + 1]);
    assert q[a := m] - {a} == q - {a};
  }

  lemma QueuedIsPooled(p: Accounts, q: Accounts, txs: set<Tx>, a: Addr, tx: Tx)
    requires Consistent(p, q, txs) && a in q && Holds(q[a].items, tx) && tx.from == a
    ensures tx in txs && tx.nonce !in ItemsOf(p, a)
  {
    assert AccountOk(p, q, txs, a);
  }

  lemma NoneRemoved(q: Accounts, a: Addr, txs: seq<Tx>)
    requires a in q && NonEmptyAt(q, a)
    ensures With(q, a, Without(q[a], Nonces(txs[..0]))) == q
  {
    assert Nonces(txs[..0]) == {};
    assert q[a].items - {} == q[a].items;
  }

  /** The last `n` entries in nonce order, highest first. */
  function TopDown(s: seq<Tx>, n: nat): (r: seq<Tx>)
    requires n <= |s|
    ensures |r| == n
  {
    seq(n, i requires 0 <= i < n => s[|s| - 1 - i])
  }

  /** The last entries in nonce order are what the lowest nonces leave over. */
  lemma TopPart(m: Items, n: nat)
    requires Filed(m) && n <= |m|
    ensures var rest := m - Lowest(m, |m| - n).Keys;
      && Filed(rest) && |Flatten(m)| == |m|
      && Flatten(m)[|m| - n..] == Flatten(rest)
  {
    FlattenLists(m);
    SortedMaps.LowestIsFront(m, |m| - n);
    SortedMaps.LowestIsFiled(m, |m| - n);
    FlattenLists(Lowest(m, |m| - n));
  }

  /** Reversing a listing lists the same. */
  lemma ReversedLists(m: Items, s: seq<Tx>, r: seq<Tx>)
    requires Filed(m) && Lists(s, m)
    requires |r| == |s| && forall i :: 0 <= i < |s| ==> r[i] == s[|s| - 1 - i]
    ensures Lists(r, m)
  {
    forall tx
      ensures tx in r <==> tx in s
    {
      if tx in r {
        var i :| 0 <= i < |r| && r[i] == tx;
        assert tx == s[|s| - 1 - i];
      }
      if tx in s {
        var i :| 0 <= i < |s| && s[i] == tx;
        assert tx == r[|s| - 1 - i];
      }
    }
  }

  lemma PartOut(m: Items, kept: Items)
    requires SubItems(kept, m)
    ensures m - (m - kept.Keys).Keys == kept
  {
  }

  lemma ListsPart(m: Items, kept: Items, rest: Items, r: seq<Tx>)
    requires SubItems(kept, m) && rest == m - kept.Keys && Filed(rest) && Lists(r, rest)
    ensures DistinctIn(r) && (forall j :: 0 <= j < |r| ==> Holds(m, r[j]))
    ensures m - Nonces(r) == kept
  {
    ListingFacts(rest, r);
    PartOut(m, kept);
  }

  lemma TopDownLists(t: seq<Tx>, n: nat, rest: Items)
    requires n <= |t| && Filed(rest) && t[|t| - n..] == Flatten(rest)
    ensures Lists(TopDown(t, n), rest)
  {
    FlattenLists(rest);
    ReversedLists(rest, Flatten(rest), TopDown(t, n));
  }

  /** Removing the last entries in nonce order leaves the lowest nonces. */
  lemma TopDownFacts(m: Items, n: nat)
    requires Filed(m) && n <= |m|
    ensures |Flatten(m)| == |m|
    ensures var r := TopDown(Flatten(m), n);
      && DistinctIn(r) && (forall j :: 0 <= j < |r| ==> Holds(m, r[j]))
      && m - Nonces(r) == Lowest(m, |m| - n)
  {
    TopPart(m, n);
    TopDownLists(Flatten(m), n, m - Lowest(m, |m| - n).Keys);
    LowestSplits(m, |m| - n);
    ListsPart(m, Lowest(m, |m| - n), m - Lowest(m, |m| - n).Keys, TopDown(Flatten(m), n));
  }

  lemma AllChosen(m: Items)
    requires Filed(m)
    ensures var txs := Flatten(m);
      DistinctIn(txs) && (forall j :: 0 <= j < |txs| ==> Holds(m, txs[j])) && m - Nonces(txs) == map[]
  {
    FlattenLists(m);
    ListingFacts(m, Flatten(m));
  }

  /** What is left of a queue with `drop` too many transactions: nothing, or its lowest nonces. */
  function Spared(m: Items, drop: nat): Items {
    if |m| <= drop then map[] else Lowest(m, |m| - drop)
  }

  /** The transactions to take out of a queue: all in nonce order, or the `drop` highest from the top down. */
  method ChooseQueued(m: Items, drop: nat) returns (txs: seq<Tx>)
    requires Filed(m)
    ensures DistinctIn(txs) && forall j :: 0 <= j < |txs| ==> Holds(m, txs[j])
    ensures m - Nonces(txs) == Spared(m, drop)
  {
    txs := Flatten(m);
    if |m| <= drop {
      AllChosen(m);
    } else {
      TopDownFacts(m, drop);
      txs := TopDown(txs, drop);
    }
  }

  /** Queue `a` with up to `drop` transactions shed. */
  function ShedOff(m: Accounts, a: Addr, drop: nat): Accounts
    requires a in m
  {
    if |m[a].items| <= drop then m - {a} else m[a := Shortened(m[a], |m[a].items| - drop)]
  }

  lemma ShedIs(q: Accounts, a: Addr, txs: seq<Tx>, drop: nat)
    requires a in q && q[a].items - Nonces(txs) == Spared(q[a].items, drop)
    ensures With(q, a, Without(q[a], Nonces(txs))) == ShedOff(q, a, drop)
  {
  }

  function Only(m: Accounts, who: set<Addr>): Accounts {
    map a | a in m && a in who :: m[a]
  }

  lemma OnlyWithout(m: Accounts, who: set<Addr>, a: Addr)
    requires a in m
    ensures Total(Only(m, who)) == (if a in who then |m[a].items| else 0) + Total(Only(m - {a}, who))
  {
    if a in who {
      TotalSplits(Only(m, who), a);
      assert Only(m, who) - {a} == Only(m - {a}, who);
    } else {
      assert Only(m, who) == Only(m - {a}, who);
    }
  }

  lemma {:induction false} TotalGrows(m: Accounts, who: set<Addr>)
    ensures Total(Only(m, who)) <= Total(m)
    decreases |m|
  {
    if a :| a in m.Keys {
      TotalSplits(m, a);
      assert m.Keys == (m - {a}).Keys + {a};
      TotalGrows(m - {a}, who);
      OnlyWithout(m, who, a);
    } else {
      assert Only(m, who) == m;
    }
  }

  lemma TotalMinus(m: Accounts, gone: set<Addr>, a: Addr)
    requires a in m && a !in gone
    ensures m - (gone + {a}) == m - gone - {a}
    ensures Total(m - (gone + {a})) == Total(m - gone) - |m[a].items|
  {
    TotalSplits(m - gone, a);
    assert m - (gone + {a}) == m - gone - {a};
  }

  ghost function BeatSet(who: set<Addr>, beats: map<Addr, nat>): set<Beat> {
    set a | a in who :: Beat(a, BeatOf(beats, a))
  }

  /** `s` holds the accounts of `who` with their heartbeats, each once, least recently active first. */
  ghost predicate ByHeartbeat(s: seq<Beat>, who: set<Addr>, beats: map<Addr, nat>) {
    Heaps.SortedBy(s, BeatLe) && multiset(s) == multiset(BeatSet(who, beats))
  }

  lemma LastOut(s: seq<Beat>, all: set<Beat>)
    requires s != [] && multiset(s) == multiset(all)
    ensures multiset(s[..|s| - 1]) == multiset(all - {s[|s| - 1]})
  {
    var x := s[|s| - 1];
    assert s == s[..|s| - 1] + [x];
    assert multiset(s) == multiset(s[..|s| - 1]) + multiset{x};
    assert x in multiset(s);
    assert multiset(all - {x}) == multiset(all) - multiset{x};
  }

  lemma BeatAdded(s: seq<Beat>, who: set<Addr>, todo: set<Addr>, a: Addr, beats: map<Addr, nat>)
    requires a in todo && todo <= who && multiset(s) == multiset(BeatSet(who - todo, beats))
    ensures multiset(s + [Beat(a, BeatOf(beats, a))]) == multiset(BeatSet(who - (todo - {a}), beats))
  {
    var x := Beat(a, BeatOf(beats, a));
    assert who - (todo - {a}) == who - todo + {a};
    assert BeatSet(who - todo + {a}, beats) == BeatSet(who - todo, beats) + {x};
    assert x !in BeatSet(who - todo, beats);
  }

  /** The last entry is an account active most recently. */
  lemma LatestBeat(s: seq<Beat>, who: set<Addr>, beats: map<Addr, nat>)
    requires ByHeartbeat(s, who, beats) && s != []
    ensures var a := s[|s| - 1].address;
      && a in who && (forall b :: b in who ==> BeatOf(beats, b) <= BeatOf(beats, a))
      && ByHeartbeat(s[..|s| - 1], who - {a}, beats)
  {
    var x := s[|s| - 1];
    assert x in multiset(s);
    assert x in BeatSet(who, beats);
    forall b | b in who
      ensures BeatOf(beats, b) <= x.heartbeat
    {
      assert Beat(b, BeatOf(beats, b)) in multiset(s);
      var i :| 0 <= i < |s| && s[i] == Beat(b, BeatOf(beats, b));
      assert i < |s| - 1 ==> BeatLe(s[i], x);
    }
    LastOut(s, BeatSet(who, beats));
    assert BeatSet(who - {x.address}, beats) == BeatSet(who, beats) - {x};
  }

  /** The queues of `gone` are out, and the one of `cut`, if any, is down to its `keep` lowest nonces. */
  ghost predicate Shed(q: Accounts, m: Accounts, gone: set<Addr>, cut: Option<Addr>, keep: nat) {
    && (cut.Some? ==> cut.value in q && cut.value !in gone && 0 < keep < |q[cut.value].items|)
    && m == if cut.Some? then (q - gone)[cut.value := Shortened(q[cut.value], keep)] else q - gone
  }

  ghost function Affected(gone: set<Addr>, cut: Option<Addr>): set<Addr> {
    gone + if cut.Some? then {cut.value} else {}
  }

  /** The affected accounts are among `who`, and none of the others there was active after one of them. */
  ghost predicate MostRecent(hit: set<Addr>, who: set<Addr>, beats: map<Addr, nat>) {
    hit <= who && forall a, b :: a in hit && b in who && b !in hit ==> BeatOf(beats, b) <= BeatOf(beats, a)
  }

  /** The state of the shedding loop: `drop` transactions too many, `left` still to be considered. */
  ghost predicate Shedding(q: Accounts, m: Accounts, gone: set<Addr>, cut: Option<Addr>, keep: nat, who: set<Addr>,
                           beats: map<Addr, nat>, left: seq<Beat>, drop: nat, limit: nat) {
    && who <= q.Keys && Shed(q, m, gone, cut, keep) && MostRecent(Affected(gone, cut), who, beats)
    && ByHeartbeat(left, who - Affected(gone, cut), beats)
    && Total(m) == limit + drop && (cut.Some? ==> drop == 0)
  }

  lemma SheddingStarts(q: Accounts, who: set<Addr>, beats: map<Addr, nat>, left: seq<Beat>, limit: nat)
    requires who <= q.Keys && ByHeartbeat(left, who, beats) && Total(q) > limit
    ensures Shedding(q, q, {}, None, 0, who, beats, left, Total(q) - limit, limit)
  {
    assert q - {} == q;
    assert who - Affected({}, None) == who;
  }

  lemma NextToShed(q: Accounts, m: Accounts, gone: set<Addr>, who: set<Addr>, beats: map<Addr, nat>, left: seq<Beat>,
                   drop: nat, limit: nat)
    requires Shedding(q, m, gone, None, 0, who, beats, left, drop, limit) && left != []
    ensures var a, rest := left[|left| - 1].address, left[..|left| - 1];
      && a in m && m[a] == q[a] && a in who && a !in gone
      && ByHeartbeat(rest, who - (gone + {a}), beats) && MostRecent(gone + {a}, who, beats)
  {
    assert Affected(gone, None) == gone;
    LatestBeat(left, who - gone, beats);
    var a := left[|left| - 1].address;
    assert who - gone - {a} == who - (gone + {a});
  }

  /** The next queue goes: wholly when it is no larger than the excess, otherwise just the excess. */
  lemma ShedWhole(q: Accounts, m: Accounts, gone: set<Addr>, who: set<Addr>, beats: map<Addr, nat>, left: seq<Beat>,
                  drop: nat, limit: nat, a: Addr)
    requires Shedding(q, m, gone, None, 0, who, beats, left, drop, limit) && left != [] && a == left[|left| - 1].address
    requires a in m && |m[a].items| <= drop
    ensures Shedding(q, ShedOff(m, a, drop), gone + {a}, None, 0, who, beats, left[..|left| - 1], drop - |m[a].items|,
                     limit)
  {
    NextToShed(q, m, gone, who, beats, left, drop, limit);
    assert Affected(gone + {a}, None) == gone + {a};
    TotalMinus(q, gone, a);
  }

  lemma PartTotal(m: Accounts, a: Addr, drop: nat)
    requires a in m && drop < |m[a].items|
    ensures Total(ShedOff(m, a, drop)) == Total(m) - drop
  {
    TotalUpdate(m, a, Shortened(m[a], |m[a].items| - drop));
  }

  lemma PartShed(q: Accounts, m: Accounts, gone: set<Addr>, a: Addr, drop: nat)
    requires m == q - gone && a in m && 0 < drop < |m[a].items|
    ensures Shed(q, ShedOff(m, a, drop), gone, Some(a), |m[a].items| - drop)
  {
  }

  lemma ShedPart(q: Accounts, m: Accounts, gone: set<Addr>, who: set<Addr>, beats: map<Addr, nat>, left: seq<Beat>,
                 drop: nat, limit: nat, a: Addr)
    requires Shedding(q, m, gone, None, 0, who, beats, left, drop, limit) && left != [] && a == left[|left| - 1].address
    requires a in m && 0 < drop < |m[a].items|
    ensures Shedding(q, ShedOff(m, a, drop), gone, Some(a), |m[a].items| - drop, who, beats, left[..|left| - 1], 0,
                     limit)
  {
    assert Affected(gone, Some(a)) == gone + {a};
    NextToShed(q, m, gone, who, beats, left, drop, limit);
    PartTotal(m, a, drop);
    PartShed(q, m, gone, a, drop);
  }

  /** One turn of the shedding loop. */
  lemma ShedTurn(q: Accounts, m: Accounts, gone: set<Addr>, who: set<Addr>, beats: map<Addr, nat>, left: seq<Beat>,
                 drop: nat, limit: nat, a: Addr)
    returns (gone': set<Addr>, cut: Option<Addr>, keep: nat)
    requires Shedding(q, m, gone, None, 0, who, beats, left, drop, limit) && left != [] && a == left[|left| - 1].address
    requires a in m && drop > 0
    ensures var size := |m[a].items|;
      && Shedding(q, ShedOff(m, a, drop), gone', cut, keep, who, beats, left[..|left| - 1],
                  if size <= drop then drop - size else 0, limit)
      && (size <= drop ==> cut == None && keep == 0)
  {
    if |m[a].items| <= drop {
      ShedWhole(q, m, gone, who, beats, left, drop, limit, a);
      return gone + {a}, None, 0;
    }
    ShedPart(q, m, gone, who, beats, left, drop, limit, a);
    return gone, Some(a), |m[a].items| - drop;
  }

  /** Local queues are not shed. */
  lemma LocalsStay(q: Accounts, m: Accounts, gone: set<Addr>, cut: Option<Addr>, keep: nat, locals: set<Addr>)
    requires Shed(q, m, gone, cut, keep) && Affected(gone, cut) !! locals
    ensures Only(m, locals) == Only(q, locals)
  {
  }

  lemma AllShed(q: Accounts, gone: set<Addr>, locals: set<Addr>, beats: map<Addr, nat>)
    requires ByHeartbeat([], q.Keys - locals - gone, beats) && gone <= q.Keys - locals
    ensures q - gone == Only(q, locals)
  {
    var rest := q.Keys - locals - gone;
    forall a | a in q
      ensures a in gone || a in locals
    {
      assert Beat(a, BeatOf(beats, a)) !in multiset(BeatSet(rest, beats));
      assert a !in rest;
    }
  }

  /** What is left in the end: exactly the limit, or the local queues alone when they exceed it. */
  lemma SheddingEnds(q: Accounts, m: Accounts, gone: set<Addr>, cut: Option<Addr>, keep: nat, locals: set<Addr>,
                     beats: map<Addr, nat>, left: seq<Beat>, drop: nat, limit: nat)
    requires Shedding(q, m, gone, cut, keep, q.Keys - locals, beats, left, drop, limit) && (drop == 0 || left == [])
    ensures var local := Total(Only(q, locals)); Total(m) == if local < limit then limit else local
  {
    LocalsStay(q, m, gone, cut, keep, locals);
    TotalGrows(m, locals);
    if drop > 0 {
      assert Affected(gone, None) == gone;
      AllShed(q, gone, locals, beats);
    }
  }

  /** Shedding or leaving alone takes transactions out of queues and puts none in. */
  lemma QueueShrunk(q: Accounts, m: Accounts, gone: set<Addr>, cut: Option<Addr>, keep: nat, a: Addr)
    requires m == q || Shed(q, m, gone, cut, keep)
    ensures SubItems(ItemsOf(m, a), ItemsOf(q, a))
  {
    if m != q && cut == Some(a) {
      LowestSplits(q[a].items, keep);
    }
  }
}
