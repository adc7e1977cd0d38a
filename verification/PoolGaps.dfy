/** What a run that follows a head change makes of one account, whatever its lists were before. Its nonces may fail to
    line up, and an executable transaction may be left in its queue. When they do is stated exactly. */
module PoolGaps {
  import opened Options
  import opened Transactions
  import opened TxLists
  import opened PoolViews
  import opened PoolSteps
  import opened PoolNonces

  /** Pending nonces are exactly those from the state nonce to the virtual nonce, queued ones are not below it. */
  ghost predicate Lined(p: Items, q: Items, virtual: nat, nonce: nat) {
    Interval(p.Keys, nonce, virtual) && forall k :: k in q ==> virtual <= k
  }

  datatype Account = Account(pending: Items, queue: Items, virtual: nat)

  /** What a run after a head change leaves one account with, as long as no pool limit is exceeded: promotion from the
      virtual nonce `next` on, demotion, and the final update of the virtual nonce. A reset sets `next` to the state
      nonce; reinjection may lower it. */
  ghost function AfterReset(p: TxListValue, q: TxListValue, means: Means, gasPriceOn: bool, cap: Option<nat>,
                            next: nat): Account {
    var run := Promotable(q, means, gasPriceOn, next);
    var l := AddAll(p, Flatten(run));
    var kept := Demoted(l, means).items;
    Account(kept, Queued(q, means, gasPriceOn, next, cap).items + SentBack(l, means), Updated(kept, Bumped(run, next)))
  }

  /** The final update of the virtual nonce. */
  ghost function Updated(pending: Items, virtual: nat): nat {
    if pending.Keys != {} then Greatest(pending.Keys) + 1 else virtual
  }

  /** The executable part of a pending list once the queue's run has joined it: what demotion goes through. */
  ghost function Executable(p: Items, q: TxListValue, means: Means, gasPriceOn: bool, next: nat): Items {
    AtLeast(p + Promotable(q, means, gasPriceOn, next), means.nonce)
  }

  ghost predicate PayableTo(m: Items, k: nat, means: Means) {
    forall u :: u in m && u <= k ==> Payable(m[u], means)
  }

  /** No transaction behind the first gap outlives demotion, which drops everything from the first unpayable one on. */
  ghost predicate NothingBehind(m: Items, means: Means) {
    forall k {:trigger PayableTo(m, k, means)} ::
      k in m && RunEnd(m.Keys, means.nonce) <= k ==> !PayableTo(m, k, means)
  }

  /** When the nonces line up after the run: the transaction at the state nonce can be paid and nothing is left behind
      the first gap; or there is no such transaction, and nothing has been promoted. */
  ghost predicate LinesUp(p: Items, q: TxListValue, means: Means, gasPriceOn: bool, next: nat) {
    var n, m := means.nonce, Executable(p, q, means, gasPriceOn, next);
    if n in m && Payable(m[n], means) then
      NothingBehind(m, means)
    else Promotable(q, means, gasPriceOn, next) == map[]
  }

  /** When the nonce after the pending ones is waiting in the queue after the run: it was there, everything before it
      can be paid, and the queue may hold something. */
  ghost predicate Waits(p: Items, q: TxListValue, means: Means, gasPriceOn: bool, cap: Option<nat>, next: nat) {
    var m := Executable(p, q, means, gasPriceOn, next);
    var j := RunEnd(m.Keys, means.nonce);
    cap != Some(0) && j in Swept(q, means, gasPriceOn).items && AllPayable(Below(m, j), means)
  }

  lemma JoinedList(p: TxListValue, q: TxListValue, means: Means, gasPriceOn: bool, cap: Option<nat>, a: Addr, next: nat)
    requires ListOk(p, true, a) && ListOk(q, false, a) && p.items.Keys !! q.items.Keys
    ensures var run := Promotable(q, means, gasPriceOn, next);
      var l := AddAll(p, Flatten(run));
      ListOk(l, true, a) && l.items == p.items + run && p.items.Keys !! run.Keys
  {
    var run := Promotable(q, means, gasPriceOn, next);
    QueuedFacts(q, means, gasPriceOn, next, cap, a);
    assert Filed(run);
    FlattenLists(run);
    var s := Flatten(run);
    forall i | 0 <= i < |s|
      ensures s[i].from == a && s[i].size > 0
    {
      assert s[i] in s;
      assert Holds(run, s[i]);
    }
    DistinctNonces(s, run);
    AddAllIsOk(p, s, true, a);
    AddAllUnion(p, s, run);
  }

  /** What demotion leaves of the executable transactions `m`: nothing if the first of them is missing or unpayable,
      otherwise everything below the first unpayable one. */
  ghost predicate FrontOf(d: Items, m: Items, means: Means) {
    && SubItems(d, m)
    && forall k {:trigger PayableTo(m, k, means)} ::
         k in m ==> (k in d <==> means.nonce in m && PayableTo(m, k, means))
  }

  lemma DemotedIs(l: TxListValue, means: Means, a: Addr)
    requires ListOk(l, true, a)
    ensures var m, d := AtLeast(l.items, means.nonce), Demoted(l, means).items;
      && FrontOf(d, m, means)
      && SentBack(l, means) == m - d.Keys - Overdrawn(m, means.balance, means.gas).Keys
  {
    var m := AtLeast(l.items, means.nonce);
    var f := l.(items := m);
    ForwardedIsOk(l, means.nonce, true, a);
    EarlyExitIsSound(f, means.balance, means.gas);
    assert m - {} == m;
    var gone := Overdrawn(m, means.balance, means.gas);
    assert forall u :: u in gone <==> u in m && !Payable(m[u], means);
  }

  /** Demotion looks at the transactions of a list alone. */
  lemma FrontIsUnique(d: Items, e: Items, m: Items, means: Means)
    requires FrontOf(d, m, means) && FrontOf(e, m, means)
    ensures d == e
  {
    forall k | k in m
      ensures k in d <==> k in e
    {
      var paid := PayableTo(m, k, means);
    }
  }

  /** If the queue lies at or above the state nonce, lining up is a matter of the pending nonces alone. */
  lemma LinedIsInterval(p: Items, q: Items, virtual: nat, nonce: nat)
    requires p.Keys !! q.Keys && (forall k :: k in p ==> nonce <= k) && forall k :: k in q ==> nonce <= k
    requires p.Keys != {} ==> virtual == Greatest(p.Keys) + 1
    ensures Lined(p, q, virtual, nonce) <==> Interval(p.Keys, nonce, virtual)
  {
    if Interval(p.Keys, nonce, virtual) {
      forall k | k in q
        ensures virtual <= k
      {
        assert k !in p.Keys;
        assert p.Keys == {} ==> virtual <= nonce by {
          assert nonce < virtual ==> nonce in p.Keys;
        }
      }
    }
  }

  lemma FrontHasGap(d: Items, m: Items, means: Means, k: nat)
    requires FrontOf(d, m, means) && k in m && RunEnd(m.Keys, means.nonce) <= k && PayableTo(m, k, means)
    requires means.nonce in m
    ensures d.Keys != {} && !Interval(d.Keys, means.nonce, Greatest(d.Keys) + 1)
  {
    assert k in d.Keys;
    assert RunEnd(m.Keys, means.nonce) !in d.Keys;
  }

  lemma FrontHasNone(d: Items, m: Items, means: Means)
    requires FrontOf(d, m, means) && (forall k :: k in m ==> means.nonce <= k) && d.Keys != {}
    requires NothingBehind(m, means)
    ensures Interval(d.Keys, means.nonce, Greatest(d.Keys) + 1)
  {
    var n, e, top := means.nonce, RunEnd(m.Keys, means.nonce), Greatest(d.Keys);
    assert top in m && PayableTo(m, top, means);
    forall k | n <= k <= top
      ensures k in d
    {
      assert k < e;
      assert k in m.Keys && PayableTo(m, k, means);
    }
  }

  /** The front of the executable transactions is gapless exactly when nothing behind the first gap belongs to it. */
  lemma FrontGapless(d: Items, m: Items, means: Means)
    requires FrontOf(d, m, means) && (forall k :: k in m ==> means.nonce <= k)
    requires means.nonce in m && Payable(m[means.nonce], means)
    ensures d.Keys != {}
    ensures Interval(d.Keys, means.nonce, Greatest(d.Keys) + 1) <==> NothingBehind(m, means)
  {
    assert PayableTo(m, means.nonce, means);
    assert means.nonce in d.Keys;
    if NothingBehind(m, means) {
      FrontHasNone(d, m, means);
    } else {
      var k :| k in m && RunEnd(m.Keys, means.nonce) <= k && PayableTo(m, k, means);
      FrontHasGap(d, m, means, k);
    }
  }

  /** Lining up, in terms of the executable transactions `m` and of whether the virtual nonce was `bumped` beyond the
      state nonce. */
  lemma FrontLines(d: Items, m: Items, q: Items, means: Means, bumped: nat)
    requires FrontOf(d, m, means) && (forall k :: k in m ==> means.nonce <= k)
    requires d.Keys !! q.Keys && forall k :: k in q ==> means.nonce <= k
    ensures Lined(d, q, Updated(d, bumped), means.nonce) <==>
      if means.nonce in m && Payable(m[means.nonce], means) then NothingBehind(m, means) else bumped <= means.nonce
  {
    var n := means.nonce;
    LinedIsInterval(d, q, Updated(d, bumped), n);
    if n in m && Payable(m[n], means) {
      FrontGapless(d, m, means);
    } else {
      forall k | k in m
        ensures k !in d
      {
        var paid := PayableTo(m, k, means);
      }
      assert d.Keys == {};
      assert n < bumped ==> n !in d.Keys;
    }
  }

  /** The parts of a swept queue: nothing of it lies below the state nonce, and what promotion leaves is held up to the
      cap. */
  lemma SweptParts(q: TxListValue, means: Means, gasPriceOn: bool, cap: Option<nat>, a: Addr, next: nat)
    requires ListOk(q, false, a) && next <= means.nonce
    ensures var n, s := means.nonce, Swept(q, means, gasPriceOn).items;
      var run, kept := Promotable(q, means, gasPriceOn, next), Queued(q, means, gasPriceOn, next, cap).items;
      && (forall k :: k in s ==> n <= k) && SubItems(s, q.items) && SubItems(run, s)
      && SubItems(kept, s) && run.Keys !! kept.Keys
  {
    SweptFacts(q, means, gasPriceOn, a);
    QueuedFacts(q, means, gasPriceOn, next, cap, a);
  }

  /** The run that promotion finds from a virtual nonce that is not above the state nonce `n`: it starts at `n` or is
      empty. */
  lemma RunParts(s: Items, n: nat, next: nat)
    requires Filed(s) && next <= n && forall k :: k in s ==> n <= k
    ensures if next == n && n in s
      then Interval(Run(s, next).Keys, n, RunEnd(s.Keys, n)) && n in Run(s, next) && Bumped(Run(s, next), next) > n
      else Run(s, next) == map[] && Bumped(Run(s, next), next) == next
  {
    RunFacts(s, next);
    if next == n && n in s {
      assert Least(s.Keys) == n;
      BumpedIs(Run(s, next), n, RunEnd(s.Keys, n), next);
    } else {
      BumpedIs(Run(s, next), n, n, next);
    }
  }

  /** The account that a reset leaves, with the parts it consists of. */
  lemma ResetParts(p: TxListValue, q: TxListValue, means: Means, gasPriceOn: bool, cap: Option<nat>, a: Addr, next: nat)
    requires ListOk(p, true, a) && ListOk(q, false, a) && p.items.Keys !! q.items.Keys && next <= means.nonce
    ensures var r, m := AfterReset(p, q, means, gasPriceOn, cap, next), Executable(p.items, q, means, gasPriceOn, next);
      var kept := Queued(q, means, gasPriceOn, next, cap).items;
      && FrontOf(r.pending, m, means) && (forall k :: k in m ==> means.nonce <= k)
      && r.queue == kept + (m - r.pending.Keys - Overdrawn(m, means.balance, means.gas).Keys)
      && kept.Keys !! m.Keys && (forall k :: k in r.queue ==> means.nonce <= k) && r.pending.Keys !! r.queue.Keys
  {
    var run := Promotable(q, means, gasPriceOn, next);
    JoinedList(p, q, means, gasPriceOn, cap, a, next);
    DemotedIs(AddAll(p, Flatten(run)), means, a);
    SweptParts(q, means, gasPriceOn, cap, a, next);
  }

  /** An account is lined up after the run exactly then. */
  lemma LinedExactly(p: TxListValue, q: TxListValue, means: Means, gasPriceOn: bool, cap: Option<nat>, a: Addr,
                     next: nat)
    requires ListOk(p, true, a) && ListOk(q, false, a) && p.items.Keys !! q.items.Keys && next <= means.nonce
    ensures var r := AfterReset(p, q, means, gasPriceOn, cap, next);
      Lined(r.pending, r.queue, r.virtual, means.nonce) <==> LinesUp(p.items, q, means, gasPriceOn, next)
  {
    var r, m := AfterReset(p, q, means, gasPriceOn, cap, next), Executable(p.items, q, means, gasPriceOn, next);
    ResetParts(p, q, means, gasPriceOn, cap, a, next);
    SweptParts(q, means, gasPriceOn, cap, a, next);
    RunParts(Swept(q, means, gasPriceOn).items, means.nonce, next);
    FrontLines(r.pending, m, r.queue, means, Bumped(Promotable(q, means, gasPriceOn, next), next));
  }

  lemma KeptLowest(s: Items, cap: Option<nat>, k: nat)
    requires forall j :: j in s ==> k <= j
    ensures k in (if cap.Some? then Lowest(s, cap.value) else s) <==> k in s && cap != Some(0)
  {
    if cap.Some? {
      LowestSplits(s, cap.value);
      var low := Lowest(s, cap.value);
      if cap.value > 0 && k in s {
        assert |s.Keys| > 0;
        assert |low| > 0 && low.Keys != {};
        var j :| j in low.Keys;
        assert k !in low ==> j < k;
      }
    }
  }

  /** The first gap in front of the executable transactions is filled from the queue exactly when the queue had it. */
  lemma KeptAtGap(p: TxListValue, q: TxListValue, means: Means, gasPriceOn: bool, cap: Option<nat>, a: Addr, next: nat)
    requires ListOk(p, true, a) && ListOk(q, false, a) && p.items.Keys !! q.items.Keys && next <= means.nonce
    ensures var j := RunEnd(Executable(p.items, q, means, gasPriceOn, next).Keys, means.nonce);
      j in Queued(q, means, gasPriceOn, next, cap).items <==>
      cap != Some(0) && j in Swept(q, means, gasPriceOn).items
  {
    var m, s := Executable(p.items, q, means, gasPriceOn, next), Swept(q, means, gasPriceOn).items;
    var run, j := Promotable(q, means, gasPriceOn, next), RunEnd(m.Keys, means.nonce);
    SweptParts(q, means, gasPriceOn, cap, a, next);
    forall i | i in s - run.Keys
      ensures j <= i
    {
      assert i !in m;
    }
    KeptLowest(s - run.Keys, cap, j);
    assert j in s ==> j !in run;
  }

  /** The account's next nonce is waiting after the run exactly then. */
  lemma WaitsExactly(p: TxListValue, q: TxListValue, means: Means, gasPriceOn: bool, cap: Option<nat>, a: Addr,
                     next: nat)
    requires ListOk(p, true, a) && ListOk(q, false, a) && p.items.Keys !! q.items.Keys && next <= means.nonce
    ensures var r, m := AfterReset(p, q, means, gasPriceOn, cap, next), Executable(p.items, q, means, gasPriceOn, next);
      && (!NextFree(r.pending, r.queue, means.nonce) <==> Waits(p.items, q, means, gasPriceOn, cap, next))
      && (Waits(p.items, q, means, gasPriceOn, cap, next) ==>
            RunEnd(r.pending.Keys, means.nonce) == RunEnd(m.Keys, means.nonce))
  {
    var r, m := AfterReset(p, q, means, gasPriceOn, cap, next), Executable(p.items, q, means, gasPriceOn, next);
    ResetParts(p, q, means, gasPriceOn, cap, a, next);
    KeptAtGap(p, q, means, gasPriceOn, cap, a, next);
    FrontEnds(r.pending, m, means);
  }

  /** The first executable transaction missing from the front is unpayable, and so it is gone for good. */
  lemma GapIsGone(d: Items, m: Items, means: Means, e: nat)
    requires FrontOf(d, m, means) && (forall k :: k in m ==> means.nonce <= k)
    requires e == RunEnd(d.Keys, means.nonce) < RunEnd(m.Keys, means.nonce)
    ensures e in Overdrawn(m, means.balance, means.gas)
  {
    assert means.nonce in m.Keys && e in m.Keys && e !in d.Keys;
    assert !PayableTo(m, e, means);
    var u :| u in m && u <= e && !Payable(m[u], means);
    assert !PayableTo(m, u, means);
    assert u !in d;
    assert means.nonce <= u;
  }

  lemma FrontReaches(d: Items, m: Items, means: Means)
    requires FrontOf(d, m, means) && (forall k :: k in m ==> means.nonce <= k)
    requires AllPayable(Below(m, RunEnd(m.Keys, means.nonce)), means)
    ensures RunEnd(d.Keys, means.nonce) == RunEnd(m.Keys, means.nonce)
  {
    var n, j := means.nonce, RunEnd(m.Keys, means.nonce);
    forall k | n <= k < j
      ensures k in d.Keys
    {
      assert k in m.Keys && n in m.Keys;
      PayableBelow(m, means, j, k);
    }
    assert j !in d.Keys;
    RunEndIs(d.Keys, n, j);
  }

  /** The front ends at the first gap if it can be paid up to there, and otherwise at an unpayable transaction. */
  lemma FrontEnds(d: Items, m: Items, means: Means)
    requires FrontOf(d, m, means) && (forall k :: k in m ==> means.nonce <= k)
    ensures var j, e := RunEnd(m.Keys, means.nonce), RunEnd(d.Keys, means.nonce);
      if AllPayable(Below(m, j), means) then e == j else e in Overdrawn(m, means.balance, means.gas)
  {
    var j, e := RunEnd(m.Keys, means.nonce), RunEnd(d.Keys, means.nonce);
    if AllPayable(Below(m, j), means) {
      FrontReaches(d, m, means);
    } else {
      var u :| u in Below(m, j) && !Payable(m[u], means);
      assert !PayableTo(m, u, means);
      assert u !in d.Keys;
      assert e <= u < j;
      assert e in m.Keys;
      GapIsGone(d, m, means, e);
    }
  }

  lemma PayableBelow(m: Items, means: Means, j: nat, k: nat)
    requires AllPayable(Below(m, j), means) && k < j
    ensures PayableTo(m, k, means)
  {
    forall u | u in m && u <= k
      ensures Payable(m[u], means)
    {
      assert u in Below(m, j);
    }
  }

  /** The executable transactions of an account that had no gap before a head change that does not lower its nonce. */
  lemma UnbrokenExecutable(p: Items, run: Items, before: nat, hi: nat, n: nat, e: nat)
    requires before <= hi && before <= n <= e && Interval(p.Keys, before, hi)
    requires n < e ==> hi <= n
    requires Interval(run.Keys, n, e)
    ensures var m := AtLeast(p + run, n);
      && Interval(m.Keys, n, RunEnd(m.Keys, n)) && RunEnd(m.Keys, n) == (if n < hi then hi else e)
      && m == if n < hi then AtLeast(p, n) else run
  {
    var m := AtLeast(p + run, n);
    RunEndIs(m.Keys, n, if n < hi then hi else e);
  }

  /** The queue of such an account, swept. */
  lemma UnbrokenParts(p: Items, q: TxListValue, means: Means, gasPriceOn: bool, a: Addr, before: nat, next: nat)
    requires ListOk(q, false, a) && Shifted(p, q.items, next, means, before) && before <= means.nonce
    ensures var n, hi, s := means.nonce, RunEnd(p.Keys, before), Swept(q, means, gasPriceOn).items;
      var run, m := Promotable(q, means, gasPriceOn, next), Executable(p, q, means, gasPriceOn, next);
      && Interval(m.Keys, n, RunEnd(m.Keys, n)) && (m == if n < hi then AtLeast(p, n) else run)
      && (forall k :: k in s ==> n <= k && hi <= k && k in q.items && s[k] == q.items[k]) && SubItems(run, s)
      && (run != map[] <==> next == n && n in s) && (n < hi ==> RunEnd(m.Keys, n) == hi)
      && (next == n && n in s ==> n in run)
      && (hi <= n ==> RunEnd(m.Keys, n) == if run == map[] then n else RunEnd(s.Keys, n))
  {
    var n, hi, s := means.nonce, RunEnd(p.Keys, before), Swept(q, means, gasPriceOn).items;
    var run := Promotable(q, means, gasPriceOn, next);
    SweptParts(q, means, gasPriceOn, None, a, next);
    RunParts(s, n, next);
    UnbrokenExecutable(p, run, before, hi, n, if run == map[] then n else RunEnd(s.Keys, n));
  }

  /** With the gas price enabled and no nonce lowered, an account that had no gap is always lined up afterwards. */
  lemma PricedReset(p: Items, q: TxListValue, means: Means, a: Addr, before: nat, next: nat)
    requires ListOk(q, false, a) && Shifted(p, q.items, next, means, before) && before <= means.nonce
    ensures LinesUp(p, q, means, true, next)
  {
    UnbrokenParts(p, q, means, true, a, before, next);
    SweptFacts(q, means, true, a);
  }

  /** With the gas price disabled the queue is promoted unfiltered. An account that had no gap ends up lined up exactly
      when its transaction at the state nonce was not an unpayable one in the queue that has been promoted. */
  lemma PricelessReset(p: Items, q: TxListValue, means: Means, a: Addr, before: nat, next: nat)
    requires ListOk(q, false, a) && Shifted(p, q.items, next, means, before) && before <= means.nonce
    ensures var n := means.nonce;
      LinesUp(p, q, means, false, next) <==> !(next == n && n in q.items && !Payable(q.items[n], means))
  {
    UnbrokenParts(p, q, means, false, a, before, next);
    SweptFacts(q, means, false, a);
  }

  /** An executable transaction is left in the queue of an account that had no gap, the gas price being enabled and no
      nonce lowered, exactly when the account is stranded, or when payable pending ones survive and their successor was
      queued: the virtual nonces have started over from the state, so promotion looks below the pending ones. */
  lemma StalledReset(p: Items, q: TxListValue, means: Means, cap: Option<nat>, a: Addr, before: nat, next: nat)
    requires ListOk(q, false, a) && Shifted(p, q.items, next, means, before) && before <= means.nonce
    ensures var n, hi, s := means.nonce, RunEnd(p.Keys, before), Swept(q, means, true).items;
      Waits(p, q, means, true, cap, next) <==>
        cap != Some(0) && if next < n then n in s else n < hi && AllPayable(AtLeast(p, n), means) && hi in s
  {
    var n, m := means.nonce, Executable(p, q, means, true, next);
    UnbrokenParts(p, q, means, true, a, before, next);
    assert Below(m, RunEnd(m.Keys, n)) == m;
    SweptFacts(q, means, true, a);
  }

  /** With the state nonce lowered below the pending nonces of an account that had no gap, it ends up lined up exactly
      when nothing is promoted, or what is promoted starts payable and is not followed by a gap: nothing was pending,
      the run reaches what was, the first of that has become unpayable, or the run itself is cut. */
  lemma LoweredReset(p: Items, q: TxListValue, means: Means, gasPriceOn: bool, a: Addr, before: nat, hi: nat, next: nat)
    requires ListOk(q, false, a) && p.Keys !! q.items.Keys && next <= means.nonce < before <= hi
    requires Interval(p.Keys, before, hi)
    ensures var n, s, run := means.nonce, Swept(q, means, gasPriceOn).items, Promotable(q, means, gasPriceOn, next);
      LinesUp(p, q, means, gasPriceOn, next) <==>
        n in run ==>
          && Payable(s[n], means)
          && (before !in p || before <= RunEnd(s.Keys, n) || !Payable(p[before], means) || !AllPayable(run, means))
  {
    var n, s, run := means.nonce, Swept(q, means, gasPriceOn).items, Promotable(q, means, gasPriceOn, next);
    SweptFacts(q, means, gasPriceOn, a);
    SweptParts(q, means, gasPriceOn, None, a, next);
    RunParts(s, n, next);
    assert Executable(p, q, means, gasPriceOn, next) == p + run;
    if n in run && Payable(s[n], means) {
      LoweredBehind(p, run, before, hi, means, RunEnd(s.Keys, n));
    }
  }

  /** A run from the lowered state nonce up to `e`, and what was pending above it. */
  lemma LoweredBehind(p: Items, run: Items, before: nat, hi: nat, means: Means, e: nat)
    requires means.nonce < before <= hi && means.nonce < e && p.Keys !! run.Keys
    requires Interval(p.Keys, before, hi) && Interval(run.Keys, means.nonce, e)
    ensures NothingBehind(p + run, means) <==>
      before !in p || before <= e || !Payable(p[before], means) || !AllPayable(run, means)
  {
    var m := p + run;
    LoweredEnd(p, run, before, hi, means.nonce, e);
    if e < before < hi {
      if Payable(p[before], means) && AllPayable(run, means) {
        assert PayableTo(m, before, means) && before in m;
      } else {
        forall k | k in m && e <= k
          ensures !PayableTo(m, k, means)
        {
          if Payable(p[before], means) {
            var u :| u in run && !Payable(run[u], means);
            assert m[u] == run[u] && u <= k;
          } else {
            assert m[before] == p[before] && before <= k;
          }
        }
      }
    }
  }

  lemma LoweredEnd(p: Items, run: Items, before: nat, hi: nat, n: nat, e: nat)
    requires n < before <= hi && n < e && p.Keys !! run.Keys && Interval(p.Keys, before, hi) && Interval(run.Keys, n, e)
    ensures before < hi ==> e <= before
    ensures RunEnd((p + run).Keys, n) == if e == before then hi else e
  {
    assert before < hi ==> before in p.Keys;
    assert before < e ==> before in run.Keys;
    RunEndIs((p + run).Keys, n, if e == before then hi else e);
  }

  /** Reinjection may lower the virtual nonce to one that was pending below the state nonce. Promotion then finds
      nothing, and the transaction at the state nonce stays in the queue. */
  lemma StrandedReset(p: TxListValue, q: TxListValue, means: Means, gasPriceOn: bool, cap: Option<nat>, a: Addr,
                      next: nat)
    requires ListOk(p, true, a) && ListOk(q, false, a) && p.items.Keys !! q.items.Keys
    requires next < means.nonce && forall k :: k in p.items ==> k < means.nonce
    ensures var r := AfterReset(p, q, means, gasPriceOn, cap, next);
      && r.pending == map[] && r.virtual == next
      && (means.nonce in r.queue <==> means.nonce in Swept(q, means, gasPriceOn).items && cap != Some(0))
  {
    StrandedParts(p, q, means, gasPriceOn, cap, a, next);
    NothingExecutable(p, q, means, gasPriceOn, cap, a, next);
  }

  lemma StrandedParts(p: TxListValue, q: TxListValue, means: Means, gasPriceOn: bool, cap: Option<nat>, a: Addr,
                      next: nat)
    requires ListOk(p, true, a) && ListOk(q, false, a) && p.items.Keys !! q.items.Keys
    requires next < means.nonce && forall k :: k in p.items ==> k < means.nonce
    ensures Executable(p.items, q, means, gasPriceOn, next) == map[]
    ensures Bumped(Promotable(q, means, gasPriceOn, next), next) == next
    ensures means.nonce in Queued(q, means, gasPriceOn, next, cap).items <==>
      means.nonce in Swept(q, means, gasPriceOn).items && cap != Some(0)
  {
    var s := Swept(q, means, gasPriceOn).items;
    assert Filed(s) && forall k :: k in s ==> means.nonce <= k by {
      SweptFacts(q, means, gasPriceOn, a);
    }
    RunParts(s, means.nonce, next);
    NoneExecutable(p.items, Promotable(q, means, gasPriceOn, next), means.nonce);
    KeptAtGap(p, q, means, gasPriceOn, cap, a, next);
  }

  lemma NoneExecutable(p: Items, run: Items, n: nat)
    requires run == map[] && forall k :: k in p ==> k < n
    ensures AtLeast(p + run, n) == map[] && RunEnd(AtLeast(p + run, n).Keys, n) == n
  {
    var m := AtLeast(p + run, n);
    assert p + run == p && m.Keys == {};
    RunEndIs(m.Keys, n, n);
  }

  lemma NothingExecutable(p: TxListValue, q: TxListValue, means: Means, gasPriceOn: bool, cap: Option<nat>, a: Addr,
                          next: nat)
    requires ListOk(p, true, a) && ListOk(q, false, a) && p.items.Keys !! q.items.Keys && next <= means.nonce
    requires Executable(p.items, q, means, gasPriceOn, next) == map[]
    ensures var r := AfterReset(p, q, means, gasPriceOn, cap, next);
      && r.pending == map[] && r.queue == Queued(q, means, gasPriceOn, next, cap).items
      && r.virtual == Bumped(Promotable(q, means, gasPriceOn, next), next)
  {
    ResetParts(p, q, means, gasPriceOn, cap, a, next);
    var r := AfterReset(p, q, means, gasPriceOn, cap, next);
    NothingKept(r.pending, r.queue, Queued(q, means, gasPriceOn, next, cap).items, means);
  }

  lemma NothingKept(d: Items, queue: Items, kept: Items, means: Means)
    requires FrontOf(d, map[], means)
    requires queue == kept + (map[] - d.Keys - Overdrawn(map[], means.balance, means.gas).Keys)
    ensures d == map[] && queue == kept
  {
    assert d.Keys == {};
    var none: Items := map[];
    assert none - d.Keys - Overdrawn(none, means.balance, means.gas).Keys == none;
  }

  ghost function Range(lo: nat, hi: nat): (s: set<nat>)
    requires lo <= hi
    ensures Interval(s, lo, hi) && |s| == hi - lo
  {
    if lo == hi then {} else Range(lo, hi - 1) + {hi - 1}
  }

  /** The lowest nonces of a list that starts with a run: the run comes first. */
  lemma LowestOfRun(m: Items, level: nat, n: nat)
    requires forall k :: k in m ==> n <= k
    ensures n + level <= RunEnd(m.Keys, n) ==> Interval(Lowest(m, level).Keys, n, n + level)
    ensures forall k :: n <= k < RunEnd(m.Keys, n) && k < n + level ==> k in Lowest(m, level)
  {
    var low, f := Lowest(m, level), RunEnd(m.Keys, n);
    LowestSplits(m, level);
    var e := if n + level <= f then n + level else f;
    var first := Range(n, e);
    assert first <= m.Keys;
    SubsetSize(first, m.Keys);
    forall k | n <= k < e
      ensures k in low
    {
      if k !in low {
        assert k in m.Keys;
        SubsetSize(low.Keys, Range(n, k));
        assert false;
      }
    }
    if e == n + level {
      SameSize(first, low.Keys);
    }
  }

  lemma SameSize(a: set<nat>, b: set<nat>)
    requires a <= b && |b| <= |a|
    ensures a == b
  {
    if x :| x in b && x !in a {
      SubsetSize(a, b - {x});
    }
  }

  /** Cutting a pending list down to its `level` lowest nonces, and taking some of the queue away: an account whose list
      is shortened is lined up exactly when what is left is no longer than its first gapless run. */
  lemma CutLines(m: Items, q: Items, q': Items, level: nat, virtual: nat, nonce: nat)
    requires m.Keys !! q.Keys && SubItems(q', q) && (level < |m| ==> 0 < level)
    requires (forall k :: k in m ==> nonce <= k) && forall k :: k in q ==> nonce <= k
    ensures var low := Lowest(m, level);
      Lined(low, q', Updated(low, virtual), nonce) <==>
        if level < |m| then nonce + level <= RunEnd(m.Keys, nonce) else Lined(m, q, Updated(m, virtual), nonce)
  {
    var low := Lowest(m, level);
    LowestSplits(m, level);
    assert low.Keys !! q'.Keys;
    LinedIsInterval(low, q', Updated(low, virtual), nonce);
    LinedIsInterval(m, q, Updated(m, virtual), nonce);
    if level < |m| {
      LowestOfRun(m, level, nonce);
      assert |low.Keys| == level;
      var top := Greatest(low.Keys);
      if nonce + level <= RunEnd(m.Keys, nonce) {
        assert nonce + level - 1 in low.Keys;
      } else {
        assert nonce <= top;
        assert low.Keys == Range(nonce, top + 1) ==> |low.Keys| == top + 1 - nonce;
      }
    }
  }

  /** The same for what is waiting: the next nonce still waits exactly when the cut leaves the run before it whole and
      the queue keeps it. */
  lemma CutWaits(m: Items, q: Items, q': Items, level: nat, nonce: nat)
    requires m.Keys !! q.Keys && SubItems(q', q) && forall k :: k in m ==> nonce <= k
    ensures var f := RunEnd(m.Keys, nonce);
      !NextFree(Lowest(m, level), q', nonce) <==> !NextFree(m, q, nonce) && f <= nonce + level && f in q'
  {
    var low, f := Lowest(m, level), RunEnd(m.Keys, nonce);
    LowestSplits(m, level);
    LowestOfRun(m, level, nonce);
    if nonce + level <= f {
      assert nonce + level !in low.Keys;
      RunEndIs(low.Keys, nonce, nonce + level);
    } else {
      assert f !in low.Keys;
      RunEndIs(low.Keys, nonce, f);
    }
  }
}
