/** How the nonces of one account line up: pending is a gapless interval from the state nonce to the
    virtual nonce and the queue lies at or above it. The weaker stages hold inside a reset. */
module PoolNonces {
  import opened Options
  import opened Transactions
  import opened TxLists
  import opened PoolViews
  import opened PoolSteps

  /** Between operations. */
  ghost predicate Settled(p: Items, q: Items, virtual: nat, means: Means) {
    && Trimmed(p, q, virtual, means)
    && (p != map[] ==> virtual == RunEnd(p.Keys, means.nonce))
  }

  /** While lists are being truncated: the virtual nonce may lag behind. */
  ghost predicate Trimmed(p: Items, q: Items, virtual: nat, means: Means) {
    var hi := RunEnd(p.Keys, means.nonce);
    && Interval(p.Keys, means.nonce, hi)
    && (forall k :: k in q ==> hi <= k)
    && virtual <= hi
    && AllPayable(p, means) && AllPayable(q, means)
  }

  /** After a head change from state nonce `before`, until the account is promoted. */
  ghost predicate Rebased(p: Items, q: Items, virtual: nat, means: Means, before: nat) {
    var hi := RunEnd(p.Keys, before);
    && Interval(p.Keys, before, hi)
    && (forall k :: k in q ==> hi <= k)
    && before <= means.nonce && virtual <= means.nonce
    && (virtual < means.nonce ==> hi <= virtual)
  }

  /** After any head change, payable or not, until the account is promoted: the pending nonces start at the state nonce
      of the old head, and the virtual nonce is the new one unless reinjection has pushed it down to one that was
      pending and stale. */
  ghost predicate Shifted(p: Items, q: Items, virtual: nat, means: Means, before: nat) {
    var hi := RunEnd(p.Keys, before);
    && Interval(p.Keys, before, hi) && virtual <= means.nonce
    && (before <= means.nonce ==> forall k :: k in q ==> hi <= k)
    && (virtual < means.nonce ==> before <= hi <= virtual)
  }

  /** No gap in front of or between the pending nonces, and none of the queued ones below them. */
  ghost predicate Unbroken(p: Items, q: Items, nonce: nat) {
    var hi := RunEnd(p.Keys, nonce);
    Interval(p.Keys, nonce, hi) && forall k :: k in q ==> hi <= k
  }

  /** After promotion, until the account is demoted. */
  ghost predicate Advanced(p: Items, q: Items, virtual: nat, means: Means) {
    var hi := RunEnd(p.Keys, means.nonce);
    && Interval(AtLeast(p, means.nonce).Keys, means.nonce, hi)
    && (forall k :: k in q ==> hi <= k)
    && virtual <= hi
    && AllPayable(q, means)
    && (means.nonce < virtual ==> AllPayable(AtLeast(p, means.nonce), means))
  }

  lemma IntervalEnd(keys: set<nat>, lo: nat, hi: nat)
    requires lo <= hi && Interval(keys, lo, hi)
    ensures RunEnd(keys, lo) == hi
  {
    RunEndIs(keys, lo, hi);
  }

  lemma SettledIsAdvanced(p: Items, q: Items, virtual: nat, means: Means)
    requires Settled(p, q, virtual, means)
    ensures Advanced(p, q, virtual, means)
  {
    assert AtLeast(p, means.nonce) == p;
  }

  lemma IdleRebasedIsAdvanced(p: Items, virtual: nat, means: Means, before: nat)
    requires Rebased(p, map[], virtual, means, before)
    ensures Advanced(p, map[], virtual, means)
  {
    var hi := RunEnd(p.Keys, before);
    var hi' := if hi < means.nonce then means.nonce else hi;
    RunEndIs(p.Keys, means.nonce, hi');
  }

  /** What promotion does to the virtual nonce. */
  ghost function Bumped(run: Items, virtual: nat): nat {
    if Flatten(run) == [] then virtual else Flatten(run)[|Flatten(run)| - 1].nonce + 1
  }

  lemma BumpedIs(run: Items, lo: nat, hi: nat, virtual: nat)
    requires Filed(run) && Interval(run.Keys, lo, hi)
    ensures Bumped(run, virtual) == if lo < hi then hi else virtual
  {
    FlattenLists(run);
    var s := Flatten(run);
    if lo < hi {
      assert hi - 1 in run;
      assert Holds(run, run[hi - 1]);
      var i :| 0 <= i < |s| && s[i] == run[hi - 1];
      assert s[|s| - 1] in s;
      assert Holds(run, s[|s| - 1]);
    } else {
      assert run.Keys == {};
    }
  }

  /** Queued nonces start above `hi`, so the run found at `virtual <= hi` is empty or starts at `hi == virtual`. */
  lemma RunAt(m: Items, floor: nat, next: nat)
    requires forall k :: k in m ==> floor <= k
    requires next <= floor
    ensures Run(m, next) == map[]
         || (next == floor && Interval(Run(m, next).Keys, floor, RunEnd(m.Keys, floor)) && floor in m)
    ensures Run(m, next) == map[] ==> next !in m
    ensures forall k :: k in m && k !in Run(m, next) ==> Run(m, next) == map[] || RunEnd(m.Keys, floor) < k
  {
    RunFacts(m, next);
    if Run(m, next) != map[] {
      assert Least(m.Keys) == floor;
      assert RunEnd(m.Keys, floor) !in m.Keys;
    }
  }

  /** Where a pending interval ends once the run at `next` joins it. */
  function JoinedEnd(s: Items, next: nat, hi: nat): nat {
    if Run(s, next) == map[] then hi else RunEnd(s.Keys, hi)
  }

  lemma JoinRun(s: Items, kept: Items, next: nat, hi: nat)
    requires Filed(s) && (forall k :: k in s ==> hi <= k) && next <= hi
    requires SubItems(kept, s) && Run(s, next).Keys !! kept.Keys
    ensures var e := JoinedEnd(s, next, hi);
      && hi <= e && Interval(Run(s, next).Keys, hi, e)
      && (forall k :: k in kept ==> e <= k)
      && Bumped(Run(s, next), next) == (if hi < e then e else next)
      && (hi < e ==> next == hi)
  {
    var run := Run(s, next);
    RunAt(s, hi, next);
    assert Filed(run) by {
      RunFacts(s, next);
    }
    if run == map[] {
      BumpedIs(run, hi, hi, next);
    } else {
      BumpedIs(run, hi, RunEnd(s.Keys, hi), next);
    }
  }

  lemma IntervalsJoin(p: Items, run: Items, lo: nat, hi: nat, e: nat)
    requires lo <= hi <= e && Interval(p.Keys, lo, hi) && Interval(run.Keys, hi, e)
    ensures Interval((p + run).Keys, lo, e) && RunEnd((p + run).Keys, lo) == e
  {
    IntervalEnd((p + run).Keys, lo, e);
  }

  lemma PayableJoin(p: Items, run: Items, s: Items, kept: Items, means: Means)
    requires AllPayable(s, means) && SubItems(run, s) && SubItems(kept, s)
    ensures AllPayable(kept, means) && AllPayable(run, means)
    ensures AllPayable(p, means) ==> AllPayable(p + run, means)
  {
    forall k | k in p + run && AllPayable(p, means)
      ensures Payable((p + run)[k], means)
    {
      assert (p + run)[k] == if k in run then run[k] else p[k];
    }
  }

  /** A swept queue `s`, the run it gives up at `next` and the part it keeps. */
  ghost predicate Split(s: Items, run: Items, kept: Items, next: nat, means: Means) {
    && Filed(s) && AllPayable(s, means) && (forall k :: k in s ==> means.nonce <= k)
    && run == Run(s, next) && SubItems(run, s) && SubItems(kept, s) && run.Keys !! kept.Keys
  }

  lemma QueueSplits(l: TxListValue, next: nat, means: Means, cap: Option<nat>, a: Addr)
    requires ListOk(l, false, a)
    ensures var s := Swept(l, means, true).items;
      && Split(s, Promotable(l, means, true, next), Queued(l, means, true, next, cap).items, next, means)
      && SubItems(s, l.items)
  {
    SweptFacts(l, means, true, a);
    QueuedFacts(l, means, true, next, cap, a);
  }

  lemma SettledJoins(p: Items, s: Items, run: Items, kept: Items, next: nat, means: Means, q: Items)
    requires Settled(p, q, next, means) && Split(s, run, kept, next, means) && SubItems(s, q)
    ensures Settled(p + run, kept, Bumped(run, next), means)
  {
    var hi := RunEnd(p.Keys, means.nonce);
    JoinRun(s, kept, next, hi);
    IntervalsJoin(p, run, means.nonce, hi, JoinedEnd(s, next, hi));
    PayableJoin(p, run, s, kept, means);
    if run == map[] {
      assert p + run == p;
    }
  }

  lemma RecentInterval(p: Items, run: Items, before: nat, hi: nat, n: nat, e: nat)
    requires before <= n && before <= hi && Interval(p.Keys, before, hi)
    requires var floor := if hi < n then n else hi; floor <= e && Interval(run.Keys, floor, e)
    ensures AtLeast(p + run, n) == AtLeast(p, n) + run
    ensures Interval(AtLeast(p + run, n).Keys, n, e) && RunEnd((p + run).Keys, n) == e
    ensures hi <= n ==> AtLeast(p + run, n) == run
  {
    RunEndIs((p + run).Keys, n, e);
  }

  lemma RebasedJoins(p: Items, s: Items, run: Items, kept: Items, next: nat, means: Means, before: nat, q: Items)
    requires Rebased(p, q, next, means, before) && Split(s, run, kept, next, means) && SubItems(s, q)
    ensures Advanced(p + run, kept, Bumped(run, next), means)
  {
    var hi := RunEnd(p.Keys, before);
    var floor := if hi < means.nonce then means.nonce else hi;
    JoinRun(s, kept, next, floor);
    RecentInterval(p, run, before, hi, means.nonce, JoinedEnd(s, next, floor));
    assert AllPayable(kept, means) && AllPayable(run, means) by {
      PayableJoin(map[], run, s, kept, means);
    }
  }

  lemma PromoteSettled(p: Items, l: TxListValue, virtual: nat, means: Means, cap: Option<nat>, a: Addr)
    requires ListOk(l, false, a) && Settled(p, l.items, virtual, means)
    ensures var run := Promotable(l, means, true, virtual);
      Settled(p + run, Queued(l, means, true, virtual, cap).items, Bumped(run, virtual), means)
  {
    QueueSplits(l, virtual, means, cap, a);
    SettledJoins(p, Swept(l, means, true).items, Promotable(l, means, true, virtual),
                 Queued(l, means, true, virtual, cap).items, virtual, means, l.items);
  }

  lemma PromoteRebased(p: Items, l: TxListValue, virtual: nat, means: Means, before: nat, cap: Option<nat>, a: Addr)
    requires ListOk(l, false, a) && Rebased(p, l.items, virtual, means, before)
    ensures var run := Promotable(l, means, true, virtual);
      Advanced(p + run, Queued(l, means, true, virtual, cap).items, Bumped(run, virtual), means)
  {
    QueueSplits(l, virtual, means, cap, a);
    RebasedJoins(p, Swept(l, means, true).items, Promotable(l, means, true, virtual),
                 Queued(l, means, true, virtual, cap).items, virtual, means, before, l.items);
  }

  lemma DemoteAdvanced(l: TxListValue, q: Items, virtual: nat, means: Means, a: Addr)
    requires ListOk(l, true, a) && Advanced(l.items, q, virtual, means)
    ensures Trimmed(Demoted(l, means).items, q + SentBack(l, means), virtual, means)
  {
    var f := l.(items := AtLeast(l.items, means.nonce));
    var hi := RunEnd(l.items.Keys, means.nonce);
    var gone := Overdrawn(f.items, means.balance, means.gas);
    ForwardedIsOk(l, means.nonce, true, a);
    EarlyExitIsSound(f, means.balance, means.gas);
    DemotedFacts(l, means, a);
    if gone.Keys == {} {
      assert f.items - gone.Keys == f.items;
      IntervalEnd(Demoted(l, means).items.Keys, means.nonce, hi);
    } else {
      var cut := Least(gone.Keys);
      assert Affordable(l, means).items == Below(f.items - gone.Keys, cut);
      assert Interval(Affordable(l, means).items.Keys, means.nonce, cut);
      IntervalEnd(Demoted(l, means).items.Keys, means.nonce, cut);
    }
  }

  lemma UnlistedIsTrimmed(q: Items, virtual: nat, means: Means)
    requires Advanced(map[], q, virtual, means)
    ensures Trimmed(map[], q, virtual, means)
  {
  }

  /** Removing a pending nonce sends the later ones back and lowers the virtual nonce to it. */
  lemma RemoveSettled(p: Items, q: Items, virtual: nat, means: Means, k: nat)
    requires Settled(p, q, virtual, means) && k in p
    ensures Settled(Below(p, k), q + Above(p, k), if k < virtual then k else virtual, means)
  {
    IntervalEnd(Below(p, k).Keys, means.nonce, k);
  }

  lemma RemoveRebased(p: Items, q: Items, virtual: nat, means: Means, before: nat, k: nat)
    requires Rebased(p, q, virtual, means, before) && k in p
    ensures Rebased(Below(p, k), q + Above(p, k), if k < virtual then k else virtual, means, before)
  {
    IntervalEnd(Below(p, k).Keys, before, k);
  }

  /** Replacing a pending transaction changes no nonce. */
  lemma ReplaceKeys(p: Items, tx: Tx, lo: nat)
    requires tx.nonce in p
    ensures p[tx.nonce := tx].Keys == p.Keys
    ensures RunEnd(p[tx.nonce := tx].Keys, lo) == RunEnd(p.Keys, lo)
  {
    assert p[tx.nonce := tx].Keys == p.Keys;
  }

  /** Dropping the highest pending nonce. */
  lemma CapTrimmed(p: Items, q: Items, virtual: nat, means: Means, top: nat)
    requires Trimmed(p, q, virtual, means) && top in p && forall k :: k in p ==> k <= top
    ensures Trimmed(p - {top}, q, if top < virtual then top else virtual, means)
  {
    assert RunEnd(p.Keys, means.nonce) - 1 in p;
    IntervalEnd((p - {top}).Keys, means.nonce, top);
  }

  /** The virtual nonce is finally set one past the highest pending nonce. */
  lemma TrimmedSettles(p: Items, q: Items, virtual: nat, means: Means, top: nat)
    requires Trimmed(p, q, virtual, means) && top in p && forall k :: k in p ==> k <= top
    ensures Settled(p, q, top + 1, means)
  {
    assert RunEnd(p.Keys, means.nonce) - 1 in p;
  }

  /** A head change that does not lower the account's nonce; the virtual nonces start over from the new state. */
  lemma SettledRebases(p: Items, q: Items, virtual: nat, means: Means, means': Means)
    requires Settled(p, q, virtual, means) && means.nonce <= means'.nonce
    ensures Rebased(p, q, means'.nonce, means', means.nonce)
  {
  }

  /** What settled means for an account: pending nonces are exactly those from the state nonce to the
      virtual nonce, and queued nonces are at or above both. */
  lemma SettledMeans(p: Items, q: Items, virtual: nat, means: Means)
    requires Settled(p, q, virtual, means)
    ensures Interval(p.Keys, means.nonce, virtual)
    ensures forall k :: k in q ==> virtual <= k && means.nonce <= k
  {
  }

  /** Stages in which single transactions come and go; `Any` asks nothing. */
  datatype Stage = Any | Calm | Moving | Shifting | Trimming

  /** Stages in which queues are promoted. */
  predicate Promotes(stage: Stage) {
    stage == Any || stage == Calm || stage == Moving
  }

  ghost predicate AlignedAs(stage: Stage, p: Items, q: Items, virtual: nat, means: Means, before: nat) {
    match stage
    case Any => true
    case Calm => Settled(p, q, virtual, means)
    case Moving => Rebased(p, q, virtual, means, before)
    case Shifting => Shifted(p, q, virtual, means, before)
    case Trimming => Trimmed(p, q, virtual, means)
  }

  lemma RemoveAligned(stage: Stage, p: Items, q: Items, virtual: nat, means: Means, before: nat, k: nat)
    requires AlignedAs(stage, p, q, virtual, means, before) && k in p
    ensures AlignedAs(stage, Below(p, k), q + Above(p, k), if k < virtual then k else virtual, means, before)
  {
    match stage
    case Any =>
    case Calm => RemoveSettled(p, q, virtual, means, k);
    case Moving => RemoveRebased(p, q, virtual, means, before, k);
    case Shifting => IntervalEnd(Below(p, k).Keys, before, k);
    case Trimming => IntervalEnd(Below(p, k).Keys, means.nonce, k);
  }

  lemma ShrinkAligned(stage: Stage, p: Items, q: Items, q': Items, virtual: nat, means: Means, before: nat)
    requires AlignedAs(stage, p, q, virtual, means, before) && SubItems(q', q)
    ensures AlignedAs(stage, p, q', virtual, means, before)
  {
  }

  lemma ReplaceAligned(stage: Stage, p: Items, q: Items, virtual: nat, means: Means, before: nat, tx: Tx)
    requires AlignedAs(stage, p, q, virtual, means, before) && tx.nonce in p && Payable(tx, means)
    ensures AlignedAs(stage, p[tx.nonce := tx], q, virtual, means, before)
  {
    ReplaceKeys(p, tx, means.nonce);
    ReplaceKeys(p, tx, before);
  }

  lemma EnterAligned(stage: Stage, p: Items, q: Items, virtual: nat, means: Means, before: nat, tx: Tx)
    requires AlignedAs(stage, p, q, virtual, means, before) && tx.nonce !in p
    requires Payable(tx, means) && means.nonce <= tx.nonce
    ensures AlignedAs(stage, p, q[tx.nonce := tx], virtual, means, before)
  {
  }

  /** Promotion keeps an account settled, and takes a rebased one to the stage before demotion. */
  lemma PromoteStaged(stage: Stage, p: Items, l: TxListValue, virtual: nat, means: Means, before: nat, cap: Option<nat>,
                      a: Addr, promoted: seq<Tx>, virtual': nat)
    requires ListOk(l, false, a) && AlignedAs(stage, p, l.items, virtual, means, before) && Promotes(stage)
    requires promoted == Flatten(Promotable(l, means, true, virtual))
    requires virtual' == if promoted != [] then promoted[|promoted| - 1].nonce + 1 else virtual
    ensures var p', q' := p + Promotable(l, means, true, virtual), Queued(l, means, true, virtual, cap).items;
      if stage == Moving then Advanced(p', q', virtual', means) else AlignedAs(stage, p', q', virtual', means, before)
  {
    assert virtual' == Bumped(Promotable(l, means, true, virtual), virtual);
    if stage == Calm {
      PromoteSettled(p, l, virtual, means, cap, a);
    } else if stage == Moving {
      PromoteRebased(p, l, virtual, means, before, cap, a);
    }
  }

  /** The nonce after the pending ones is not waiting in the queue. */
  ghost predicate NextFree(p: Items, q: Items, nonce: nat) {
    RunEnd(p.Keys, nonce) !in q
  }

  /** Promotion leaves nothing executable in the queue of a settled account, unless its virtual nonce has fallen
      below the state nonce. */
  lemma PromoteFrees(p: Items, l: TxListValue, virtual: nat, means: Means, cap: Option<nat>, a: Addr)
    requires ListOk(l, false, a) && Settled(p, l.items, virtual, means)
    ensures var run := Promotable(l, means, true, virtual);
      means.nonce <= virtual || NextFree(p, l.items, means.nonce) ==>
      NextFree(p + run, Queued(l, means, true, virtual, cap).items, means.nonce)
  {
    QueueSplits(l, virtual, means, cap, a);
    if means.nonce <= virtual || NextFree(p, l.items, means.nonce) {
      JoinFrees(p, Swept(l, means, true).items, Promotable(l, means, true, virtual),
                Queued(l, means, true, virtual, cap).items, virtual, means, l.items);
    }
  }

  lemma JoinFrees(p: Items, s: Items, run: Items, kept: Items, next: nat, means: Means, q: Items)
    requires Settled(p, q, next, means) && Split(s, run, kept, next, means) && SubItems(s, q)
    requires means.nonce <= next || NextFree(p, q, means.nonce)
    ensures NextFree(p + run, kept, means.nonce)
  {
    var hi := RunEnd(p.Keys, means.nonce);
    JoinRun(s, kept, next, hi);
    RunAt(s, hi, next);
    IntervalsJoin(p, run, means.nonce, hi, JoinedEnd(s, next, hi));
    if run == map[] {
      assert p + run == p;
      assert p.Keys == {} ==> hi == means.nonce;
    }
  }

  /** Truncation keeps the next nonce free: what was cut off the top is gone, and the queue only shrinks. */
  lemma ShorterFree(p: Items, q: Items, virtual: nat, means: Means, q': Items, level: nat)
    requires Trimmed(p, q, virtual, means) && p.Keys !! q.Keys && SubItems(q', q)
    requires NextFree(p, q, means.nonce)
    ensures NextFree(Lowest(p, level), q', means.nonce)
  {
    LowestSplits(p, level);
    var low := Lowest(p, level);
    var e := RunEnd(low.Keys, means.nonce);
    assert e <= RunEnd(p.Keys, means.nonce) by {
      assert RunEnd(p.Keys, means.nonce) !in low;
    }
    if e < RunEnd(p.Keys, means.nonce) {
      assert e in p;
    }
  }
}
