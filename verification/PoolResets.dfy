/** What whole runs leave behind, account by account: when the nonces line up and when an executable transaction is left
    waiting. */
module PoolResets {
  import opened Options
  import opened Transactions
  import opened TxLists
  import opened PoolViews
  import opened PoolSteps
  import opened PoolNonces
  import opened PoolGaps
  import opened PoolTruncation
  import opened Noncers
  import opened PoolChanges
  import opened PoolTurns
  import opened TxPools

  /** A reset adds no transactions to those promotion began with. */
  lemma NothingAdded(v: View, w: View, means: Means, gasPriceOn: bool, cap: Option<nat>, tx: Tx)
    requires Consistent(v.pending, v.queue, v.txs) && Consistent(w.pending, w.queue, w.txs)
    requires tx.from in w.virtual && ResetAs(v, w.pending, w.queue, w.virtual[tx.from], means, gasPriceOn, cap, tx.from)
    ensures tx in w.txs ==> tx in v.txs
  {
    var a := tx.from;
    var p, q, next := ListOf(v.pending, a, true), ListOf(v.queue, a, false), v.virtual[a];
    var run := Promotable(q, means, gasPriceOn, next);
    OwnLists(v.pending, v.queue, v.txs, a);
    OwnLists(w.pending, w.queue, w.txs, a);
    JoinedList(p, q, means, gasPriceOn, cap, a, next);
    QueuedFacts(q, means, gasPriceOn, next, cap, a);
    DemotedFacts(AddAll(p, Flatten(run)), means, a);
    if tx in w.txs {
      HeldBefore(p.items, run, q.items, Queued(q, means, gasPriceOn, next, cap).items,
                 Demoted(AddAll(p, Flatten(run)), means).items, SentBack(AddAll(p, Flatten(run)), means), tx);
    }
  }

  lemma HeldBefore(p: Items, run: Items, q: Items, kept: Items, left: Items, back: Items, tx: Tx)
    requires SubItems(run, q) && SubItems(kept, q) && SubItems(left, p + run) && SubItems(back, p + run)
    requires Holds(left, tx) || Holds(kept + back, tx)
    ensures Holds(p, tx) || Holds(q, tx)
  {
  }

  /** A run that begins promotion with no more transactions than either limit stays within both. */
  lemma FewFit(pool: TxPool, v: View, w: View, gasPriceOn: bool)
    requires Consistent(v.pending, v.queue, v.txs) && Consistent(w.pending, w.queue, w.txs)
    requires pool.ResetFrom(v, w, gasPriceOn)
    ensures |v.txs| <= pool.config.globalSlots && |v.txs| <= pool.config.globalQueue ==> pool.Fits(w.pending, w.queue)
  {
    forall tx | tx in w.txs
      ensures tx in v.txs
    {
      assert pool.ResetFromAt(v, w, gasPriceOn, tx.from);
      NothingAdded(v, w, pool.MeansOf(tx.from), gasPriceOn, pool.CapOf(tx.from), tx);
    }
    SubsetSize(w.txs, v.txs);
    TotalsCount(w.pending, w.queue, w.txs);
  }

  /** What a run that follows a head change leaves of an account: promotion, demotion and the truncations, from the
      lists of `v`. `mid` is what truncation finds. */
  ghost predicate ResetWell(pool: TxPool, v: View, mid: View, c: Cuts, gasPriceOn: bool, a: Addr)
    reads pool, pool.pendingNonces
  {
    && a in v.virtual
    && Account(ItemsOf(pool.pending, a), ItemsOf(pool.queue, a), pool.pendingNonces.At(a)) ==
       CutDown(AfterReset(ListOf(v.pending, a, true), ListOf(v.queue, a, false), pool.MeansOf(a), gasPriceOn,
                          pool.CapOf(a), v.virtual[a]), pool.LevelOf(mid.pending, c, a), c, a)
  }

  /** In consequence its nonces line up exactly when `LinesUp` says so or, if its pending list has been cut, when what
      is left is no longer than its first gapless run. Its next nonce is waiting exactly when `Waits` says so and the
      truncations have left the run before it whole and the transaction in the queue. */
  ghost predicate FollowedAt(pool: TxPool, v: View, mid: View, c: Cuts, gasPriceOn: bool, a: Addr)
    reads pool, pool.pendingNonces
  {
    && a in v.virtual
    && var p, q, next, means := ItemsOf(v.pending, a), ListOf(v.queue, a, false), v.virtual[a], pool.MeansOf(a);
      var n, m, level := means.nonce, ItemsOf(mid.pending, a), pool.LevelOf(mid.pending, c, a);
      var j := RunEnd(Executable(p, q, means, gasPriceOn, next).Keys, n);
      && (Lined(ItemsOf(pool.pending, a), ItemsOf(pool.queue, a), pool.pendingNonces.At(a), n) <==>
          if level < |m| then n + level <= RunEnd(m.Keys, n) else LinesUp(p, q, means, gasPriceOn, next))
      && (!pool.FreeAt(a) <==>
          Waits(p, q, means, gasPriceOn, pool.CapOf(a), next) && j <= n + level
          && j in KeptOf(ItemsOf(mid.queue, a), c, a))
  }

  lemma CutLast(r: Account, level: nat, c: Cuts, a: Addr, virtual: nat, now: Account)
    requires r.virtual == Updated(r.pending, virtual) && (level < |r.pending| ==> 0 < level)
    requires now.pending == Lowest(r.pending, level) && now.queue == KeptOf(r.queue, c, a)
    requires now.virtual == Updated(now.pending, virtual)
    ensures now == CutDown(r, level, c, a)
  {
    if level < |r.pending| {
      assert |now.pending| == level;
    }
  }

  lemma ResetsWell(pool: TxPool, v: View, mid: View, c: Cuts, gasPriceOn: bool, a: Addr)
    requires a in v.virtual && pool.config.accountSlots >= 1
    requires pool.ResetFromAt(v, mid, gasPriceOn, a) && pool.TruncatedAs(mid.pending, mid.queue, c)
    requires pool.ConcludedAt(mid, a)
    ensures ResetWell(pool, v, mid, c, gasPriceOn, a)
  {
    pool.TruncatedLists(mid.pending, mid.queue, c, a);
    var r := AfterReset(ListOf(v.pending, a, true), ListOf(v.queue, a, false), pool.MeansOf(a), gasPriceOn,
                        pool.CapOf(a), v.virtual[a]);
    CutLast(r, pool.LevelOf(mid.pending, c, a), c, a, mid.virtual[a],
            Account(ItemsOf(pool.pending, a), ItemsOf(pool.queue, a), pool.pendingNonces.At(a)));
  }

  lemma FollowsExactly(pool: TxPool, v: View, mid: View, c: Cuts, gasPriceOn: bool, a: Addr)
    requires Consistent(v.pending, v.queue, v.txs) && a in v.virtual && v.virtual[a] <= pool.MeansOf(a).nonce
    requires pool.ResetFromAt(v, mid, gasPriceOn, a) && pool.TruncatedAs(mid.pending, mid.queue, c)
    requires pool.ConcludedAt(mid, a) && pool.config.accountSlots >= 1
    ensures ResetWell(pool, v, mid, c, gasPriceOn, a) && FollowedAt(pool, v, mid, c, gasPriceOn, a)
  {
    OwnLists(v.pending, v.queue, v.txs, a);
    var p, q, next, means := ListOf(v.pending, a, true), ListOf(v.queue, a, false), v.virtual[a], pool.MeansOf(a);
    pool.TruncatedLists(mid.pending, mid.queue, c, a);
    ResetsWell(pool, v, mid, c, gasPriceOn, a);
    CutExactly(p, q, means, gasPriceOn, pool.CapOf(a), a, next, pool.LevelOf(mid.pending, c, a), c);
  }

  /** What the truncations leave of an account that has been reset. */
  lemma CutExactly(p: TxListValue, q: TxListValue, means: Means, gasPriceOn: bool, cap: Option<nat>, a: Addr, next: nat,
                   level: nat, c: Cuts)
    requires ListOk(p, true, a) && ListOk(q, false, a) && p.items.Keys !! q.items.Keys && next <= means.nonce
    requires level < |AfterReset(p, q, means, gasPriceOn, cap, next).pending| ==> 0 < level
    ensures var r, n := AfterReset(p, q, means, gasPriceOn, cap, next), means.nonce;
      var f := CutDown(r, level, c, a);
      && (Lined(f.pending, f.queue, f.virtual, n) <==>
          if level < |r.pending| then n + level <= RunEnd(r.pending.Keys, n)
          else LinesUp(p.items, q, means, gasPriceOn, next))
      && (!NextFree(f.pending, f.queue, n) <==>
          var j := RunEnd(Executable(p.items, q, means, gasPriceOn, next).Keys, n);
          Waits(p.items, q, means, gasPriceOn, cap, next) && j <= n + level && j in KeptOf(r.queue, c, a))
  {
    var r := AfterReset(p, q, means, gasPriceOn, cap, next);
    LinedExactly(p, q, means, gasPriceOn, cap, a, next);
    WaitsExactly(p, q, means, gasPriceOn, cap, a, next);
    assert r.pending.Keys !! r.queue.Keys && (forall k :: k in r.pending ==> means.nonce <= k)
           && forall k :: k in r.queue ==> means.nonce <= k by {
      ResetParts(p, q, means, gasPriceOn, cap, a, next);
    }
    CutApart(r, level, c, a, means.nonce);
  }

  lemma CutApart(r: Account, level: nat, c: Cuts, a: Addr, n: nat)
    requires r.pending.Keys !! r.queue.Keys && (level < |r.pending| ==> 0 < level)
    requires (forall k :: k in r.pending ==> n <= k) && forall k :: k in r.queue ==> n <= k
    requires r.virtual == Updated(r.pending, r.virtual)
    ensures var f, e := CutDown(r, level, c, a), RunEnd(r.pending.Keys, n);
      && (Lined(f.pending, f.queue, f.virtual, n) <==>
          if level < |r.pending| then n + level <= e else Lined(r.pending, r.queue, r.virtual, n))
      && (!NextFree(f.pending, f.queue, n) <==>
          !NextFree(r.pending, r.queue, n) && e <= n + level && e in KeptOf(r.queue, c, a))
  {
    LowestSplits(r.queue, c.keep);
    CutLines(r.pending, r.queue, KeptOf(r.queue, c, a), level, r.virtual, n);
    CutWaits(r.pending, r.queue, KeptOf(r.queue, c, a), level, n);
  }

  /** A run that follows a head change of any pool: every account is left exactly as `ResetWell` and `FollowedAt` say.
      `start` is what promotion begins with, the old lists with virtual nonces that start over, as far as the turns of
      reinjection have changed them. If the gas price is enabled, the nonces lined up before and none is lowered, they
      line up again. */
  method FollowHead(pool: TxPool, head: Head, reinject: seq<Tx>, dirty: seq<Addr>, gasPriceOn: bool,
                    checks: Tx -> Checks)
    returns (ghost start: View, ghost mid: View, ghost cuts: Cuts, ghost turns: seq<Turn>)
    requires pool.Valid() && pool.priced.Covers({}) && pool.config.accountSlots >= 1
    requires head.state.Some? && forall i :: 0 <= i < |reinject| ==> reinject[i].size > 0
    modifies pool`pending, pool`queue, pool`beats, pool`locals, pool`currentState, pool`currentMaxGas,
      pool`pendingNonces, pool.all, pool.priced, pool.pendingNonces
    ensures pool.Valid() && pool.priced.Covers({})
    ensures pool.RulesNow(gasPriceOn) == old(pool.RulesAt(head, gasPriceOn))
    ensures pool.pendingNonces == old(pool.pendingNonces) || fresh(pool.pendingNonces)
    ensures pool.StartsFrom(old(pool.Restart(head.state.value)), old(pool.currentState), old(pool.AllUnbroken()), head,
                            reinject, old(pool.RulesAt(head, gasPriceOn)), checks, start, turns)
    ensures pool.ResetFrom(start, mid, gasPriceOn) && pool.TruncatedAs(mid.pending, mid.queue, cuts)
    ensures forall a :: ResetWell(pool, start, mid, cuts, gasPriceOn, a)
    ensures forall a :: FollowedAt(pool, start, mid, cuts, gasPriceOn, a)
    ensures |start.txs| <= pool.config.globalSlots && |start.txs| <= pool.config.globalQueue ==>
      pool.Fits(mid.pending, mid.queue)
    ensures SplitAs(old(pool.all.Txs()), old(pool.all.remotes), AsSet(reinject), pool.locals, pool.all.Txs(),
                    pool.all.remotes)
    ensures pool.ThinnedFrom(start)
    ensures gasPriceOn && old(pool.Aligned(Calm, pool.currentState)) && Climbs(old(pool.currentState), head) ==>
      pool.Aligned(Calm, pool.currentState)
  {
    ghost var calm := gasPriceOn && pool.Aligned(Calm, pool.currentState) && Climbs(pool.currentState, head);
    start, mid, cuts, turns := pool.RunReorg(Some(head), reinject, dirty, gasPriceOn, checks, calm);
    pool.StartMeans(old(pool.Restart(head.state.value)), old(pool.currentState), old(pool.AllUnbroken()), head,
                    reinject, old(pool.RulesAt(head, gasPriceOn)), checks, start, turns);
    AllFollow(pool, old(pool.Restart(head.state.value)), start, mid, cuts, gasPriceOn);
    FewFit(pool, start, mid, gasPriceOn);
  }

  ghost predicate Climbs(was: State, head: Head)
    requires head.state.Some?
  {
    forall a :: was.Nonce(a) <= head.state.value.Nonce(a)
  }

  lemma AllFollow(pool: TxPool, restart: View, start: View, mid: View, c: Cuts, gasPriceOn: bool)
    requires restart.virtual == imap a: Addr | true :: pool.currentState.Nonce(a)
    requires Consistent(start.pending, start.queue, start.txs) && Backed(restart, start)
    requires pool.ResetFrom(start, mid, gasPriceOn) && pool.TruncatedAs(mid.pending, mid.queue, c)
    requires pool.ConcludedFrom(mid) && pool.config.accountSlots >= 1
    ensures forall a :: ResetWell(pool, start, mid, c, gasPriceOn, a) && FollowedAt(pool, start, mid, c, gasPriceOn, a)
  {
    forall a
      ensures ResetWell(pool, start, mid, c, gasPriceOn, a) && FollowedAt(pool, start, mid, c, gasPriceOn, a)
    {
      assert BackedAt(restart, start, a) && pool.ResetFromAt(start, mid, gasPriceOn, a) && pool.ConcludedAt(mid, a);
      FollowsExactly(pool, start, mid, c, gasPriceOn, a);
    }
  }

  /** Promotion of a settled account leaves its next nonce free, unless the account is stranded and the cap on its
      queue spares the transaction. */
  lemma DirtyExactly(p: Items, l: TxListValue, virtual: nat, means: Means, cap: Option<nat>, a: Addr)
    requires ListOk(l, false, a) && Settled(p, l.items, virtual, means)
    ensures var run, kept := Promotable(l, means, true, virtual), Queued(l, means, true, virtual, cap).items;
      && (!NextFree(p + run, kept, means.nonce) <==> virtual < means.nonce && means.nonce in l.items && cap != Some(0))
      && (virtual < means.nonce ==> p + run == map[])
      && forall k :: k in p + run ==> means.nonce <= k
  {
    var run := Promotable(l, means, true, virtual);
    assert SubItems(run, l.items) by {
      QueuedFacts(l, means, true, virtual, cap, a);
    }
    if virtual < means.nonce {
      assert p == map[];
      StrandedStays(l, virtual, means, cap, a);
    } else {
      PromoteFrees(p, l, virtual, means, cap, a);
    }
  }

  lemma StrandedStays(l: TxListValue, virtual: nat, means: Means, cap: Option<nat>, a: Addr)
    requires ListOk(l, false, a) && AllPayable(l.items, means) && virtual < means.nonce
    requires forall k :: k in l.items ==> means.nonce <= k
    ensures map[] + Promotable(l, means, true, virtual) == map[]
    ensures !NextFree(map[], Queued(l, means, true, virtual, cap).items, means.nonce) <==>
      means.nonce in l.items && cap != Some(0)
  {
    var none: TxListValue := TxListValue(true, map[], 0, 0);
    StrandedParts(none, l, means, true, cap, a, virtual);
    SweepSpares(l, means, a);
    assert AtLeast(l.items, means.nonce) == l.items;
    assert Promotable(l, means, true, virtual) == map[] by {
      RunParts(Swept(l, means, true).items, means.nonce, virtual);
    }
    RunEndIs({}, means.nonce, means.nonce);
  }

  /** A run in which no limit cuts in leaves every account as the reset leaves it. */
  lemma FollowsUncut(pool: TxPool, v: View, mid: View, c: Cuts, gasPriceOn: bool, a: Addr)
    requires Consistent(v.pending, v.queue, v.txs) && a in v.virtual && v.virtual[a] <= pool.MeansOf(a).nonce
    requires pool.ResetFromAt(v, mid, gasPriceOn, a) && ResetWell(pool, v, mid, c, gasPriceOn, a)
    requires pool.TruncatedAs(mid.pending, mid.queue, c) && pool.Fits(mid.pending, mid.queue)
    ensures var p, q, means := ListOf(v.pending, a, true), ListOf(v.queue, a, false), pool.MeansOf(a);
      && Account(ItemsOf(pool.pending, a), ItemsOf(pool.queue, a), pool.pendingNonces.At(a))
         == AfterReset(p, q, means, gasPriceOn, pool.CapOf(a), v.virtual[a])
      && (Lined(ItemsOf(pool.pending, a), ItemsOf(pool.queue, a), pool.pendingNonces.At(a), means.nonce) <==>
          LinesUp(p.items, q, means, gasPriceOn, v.virtual[a]))
      && (!pool.FreeAt(a) <==> Waits(p.items, q, means, gasPriceOn, pool.CapOf(a), v.virtual[a]))
  {
    OwnLists(v.pending, v.queue, v.txs, a);
    var p, q, means := ListOf(v.pending, a, true), ListOf(v.queue, a, false), pool.MeansOf(a);
    LinedExactly(p, q, means, gasPriceOn, pool.CapOf(a), a, v.virtual[a]);
    WaitsExactly(p, q, means, gasPriceOn, pool.CapOf(a), a, v.virtual[a]);
  }

  /** Sweeping takes nothing that is executable and payable. */
  lemma SweepSpares(l: TxListValue, means: Means, a: Addr)
    requires ListOk(l, false, a) && AllPayable(l.items, means)
    ensures Swept(l, means, true).items == AtLeast(l.items, means.nonce)
  {
    SweptFacts(l, means, true, a);
    var recent := AtLeast(l.items, means.nonce);
    assert Overdrawn(recent, means.balance, means.gas).Keys == {};
    assert recent - {} == recent;
  }

  /** Promotion adds no transactions either. */
  lemma NothingPromotedAnew(v: View, w: View, means: Means, cap: Option<nat>, who: set<Addr>, tx: Tx)
    requires Consistent(v.pending, v.queue, v.txs) && Consistent(w.pending, w.queue, w.txs)
    requires tx.from in v.virtual && tx.from in w.virtual
    requires PromotingAs(v.pending, v.queue, v.virtual[tx.from], w.pending, w.queue, w.virtual[tx.from], means, true,
                         cap, who, tx.from)
    ensures tx in w.txs ==> tx in v.txs
  {
    var a := tx.from;
    OwnLists(v.pending, v.queue, v.txs, a);
    OwnLists(w.pending, w.queue, w.txs, a);
    if a in who && a in v.queue {
      QueuedFacts(v.queue[a], means, true, v.virtual[a], cap, a);
    }
  }

  /** The nonces of every account in `v` line up under the state and gas limit given. */
  ghost predicate SettledIn(v: View, s: State, maxGas: nat) {
    forall a :: SettledInAt(v, s, maxGas, a)
  }

  ghost predicate SettledInAt(v: View, s: State, maxGas: nat, a: Addr) {
    a in v.virtual && Settled(ItemsOf(v.pending, a), ItemsOf(v.queue, a), v.virtual[a], MeansIn(s, maxGas, a))
  }

  lemma CalmSettles(pool: TxPool)
    requires pool.Aligned(Calm, pool.currentState)
    ensures SettledIn(pool.Now(), pool.currentState, pool.currentMaxGas)
  {
    forall a
      ensures SettledInAt(pool.Now(), pool.currentState, pool.currentMaxGas, a)
    {
      assert pool.AlignedAt(Calm, pool.currentState, a);
    }
  }

  ghost predicate StrandedIn(v: View, s: State, a: Addr) {
    a in v.virtual && v.virtual[a] < s.Nonce(a) && s.Nonce(a) in ItemsOf(v.queue, a)
  }

  /** What a run that only promotes has left of one of its accounts: an executable transaction is waiting exactly when
      the account was stranded, its queue may hold something, and truncation has left the transaction there. */
  ghost predicate PromotedWell(pool: TxPool, v: View, mid: View, c: Cuts, a: Addr)
    reads pool
  {
    !pool.FreeAt(a) <==>
    && StrandedIn(v, pool.currentState, a) && pool.CapOf(a) != Some(0)
    && pool.currentState.Nonce(a) in KeptOf(ItemsOf(mid.queue, a), c, a)
  }

  /** The same when no limit cuts in. */
  ghost predicate PromotedUncut(pool: TxPool, v: View, a: Addr)
    reads pool
  {
    !pool.FreeAt(a) <==> StrandedIn(v, pool.currentState, a) && pool.CapOf(a) != Some(0)
  }

  lemma PromotesExactly(pool: TxPool, v: View, mid: View, c: Cuts, who: set<Addr>, a: Addr)
    requires Consistent(v.pending, v.queue, v.txs) && Consistent(mid.pending, mid.queue, mid.txs) && a in who
    requires SettledInAt(v, pool.currentState, pool.currentMaxGas, a)
    requires pool.PromotedFromAt(v, mid, true, who, a) && pool.TruncatedAs(mid.pending, mid.queue, c)
    ensures PromotedWell(pool, v, mid, c, a)
    ensures pool.Fits(mid.pending, mid.queue) ==> PromotedUncut(pool, v, a)
  {
    OwnLists(v.pending, v.queue, v.txs, a);
    OwnLists(mid.pending, mid.queue, mid.txs, a);
    var m, k, n := ItemsOf(mid.pending, a), ItemsOf(mid.queue, a), pool.currentState.Nonce(a);
    JoinedLists(v, mid, pool.MeansOf(a), pool.CapOf(a), who, a);
    pool.TruncatedLists(mid.pending, mid.queue, c, a);
    CutStranded(m, k, pool.LevelOf(mid.pending, c, a), c, a, n, v.virtual[a] < n);
  }

  lemma CutStranded(m: Items, k: Items, level: nat, c: Cuts, a: Addr, n: nat, stranded: bool)
    requires m.Keys !! k.Keys && (forall i :: i in m ==> n <= i) && (stranded ==> m == map[])
    requires !NextFree(m, k, n) ==> stranded
    ensures !NextFree(Lowest(m, level), KeptOf(k, c, a), n) <==> !NextFree(m, k, n) && n in KeptOf(k, c, a)
    ensures !NextFree(m, k, n) ==> n in k
  {
    LowestSplits(k, c.keep);
    CutWaits(m, k, KeptOf(k, c, a), level, n);
    if stranded {
      RunEndIs(m.Keys, n, n);
    }
  }

  lemma NothingMore(p: Items)
    ensures p + map[] == p
  {
  }

  lemma NothingQueued(l: TxListValue, means: Means, next: nat, cap: Option<nat>, a: Addr)
    requires ListOk(l, false, a) && l.items == map[]
    ensures Promotable(l, means, true, next) == map[] && Queued(l, means, true, next, cap).items == map[]
  {
    QueuedFacts(l, means, true, next, cap, a);
    assert Promotable(l, means, true, next).Keys == {};
    assert Queued(l, means, true, next, cap).items.Keys == {};
  }

  lemma JoinedLists(v: View, mid: View, means: Means, cap: Option<nat>, who: set<Addr>, a: Addr)
    requires Consistent(v.pending, v.queue, v.txs) && a in who && a in v.virtual && a in mid.virtual
    requires Settled(ItemsOf(v.pending, a), ItemsOf(v.queue, a), v.virtual[a], means)
    requires PromotingAs(v.pending, v.queue, v.virtual[a], mid.pending, mid.queue, mid.virtual[a], means, true, cap,
                         who, a)
    ensures var m, k, n := ItemsOf(mid.pending, a), ItemsOf(mid.queue, a), means.nonce;
      && (!NextFree(m, k, n) <==> v.virtual[a] < n && n in ItemsOf(v.queue, a) && cap != Some(0))
      && (v.virtual[a] < n ==> m == map[]) && forall i :: i in m ==> n <= i
  {
    OwnLists(v.pending, v.queue, v.txs, a);
    var p, l := ItemsOf(v.pending, a), ListOf(v.queue, a, false);
    DirtyExactly(p, l, v.virtual[a], means, cap, a);
    if a !in v.queue {
      NothingQueued(l, means, v.virtual[a], cap, a);
      NothingMore(p);
    }
  }

  lemma AllPromoteExactly(pool: TxPool, v: View, mid: View, c: Cuts, who: set<Addr>)
    requires Consistent(v.pending, v.queue, v.txs) && Consistent(mid.pending, mid.queue, mid.txs)
    requires SettledIn(v, pool.currentState, pool.currentMaxGas) && pool.PromotedFrom(v, mid, true, who)
    requires pool.TruncatedAs(mid.pending, mid.queue, c)
    ensures forall a :: a in who ==> PromotedWell(pool, v, mid, c, a)
    ensures forall a :: a in who && pool.Fits(mid.pending, mid.queue) ==> PromotedUncut(pool, v, a)
  {
    forall a | a in who
      ensures PromotedWell(pool, v, mid, c, a) && (pool.Fits(mid.pending, mid.queue) ==> PromotedUncut(pool, v, a))
    {
      assert SettledInAt(v, pool.currentState, pool.currentMaxGas, a) && pool.PromotedFromAt(v, mid, true, who, a);
      PromotesExactly(pool, v, mid, c, who, a);
    }
  }

  lemma FewFitPromoted(pool: TxPool, v: View, w: View, who: set<Addr>)
    requires Consistent(v.pending, v.queue, v.txs) && Consistent(w.pending, w.queue, w.txs)
    requires pool.PromotedFrom(v, w, true, who)
    ensures |v.txs| <= pool.config.globalSlots && |v.txs| <= pool.config.globalQueue ==> pool.Fits(w.pending, w.queue)
  {
    forall tx | tx in w.txs
      ensures tx in v.txs
    {
      assert pool.PromotedFromAt(v, w, true, who, tx.from);
      NothingPromotedAnew(v, w, pool.MeansOf(tx.from), pool.CapOf(tx.from), who, tx);
    }
    SubsetSize(w.txs, v.txs);
    TotalsCount(w.pending, w.queue, w.txs);
  }

  /** A run that only promotes, in a pool whose nonces line up: they line up again, and the accounts it is told of are
      left exactly as `PromotedWell` says. */
  method FollowDirty(pool: TxPool, dirty: seq<Addr>, checks: Tx -> Checks)
    returns (ghost mid: View, ghost cuts: Cuts)
    requires pool.Valid() && pool.priced.Covers({}) && pool.config.accountSlots >= 1
    requires pool.Aligned(Calm, pool.currentState) && DistinctAddrs(dirty)
    modifies pool`pending, pool`queue, pool`beats, pool`locals, pool`currentState, pool`currentMaxGas,
      pool`pendingNonces, pool.all, pool.priced, pool.pendingNonces
    ensures pool.Valid() && pool.priced.Covers({}) && pool.Aligned(Calm, pool.currentState)
    ensures pool.RulesNow(true) == old(pool.RulesNow(true))
    ensures pool.pendingNonces == old(pool.pendingNonces) || fresh(pool.pendingNonces)
    ensures pool.PromotedFrom(old(pool.Now()), mid, true, AddrSet(dirty))
    ensures pool.TruncatedAs(mid.pending, mid.queue, cuts) && pool.ConcludedFrom(mid)
    ensures var n := |old(pool.all.Txs())|;
      n <= pool.config.globalSlots && n <= pool.config.globalQueue ==> pool.Fits(mid.pending, mid.queue)
    ensures forall a :: a in AddrSet(dirty) ==> PromotedWell(pool, old(pool.Now()), mid, cuts, a)
    ensures forall a :: a in AddrSet(dirty) && pool.Fits(mid.pending, mid.queue) ==>
      PromotedUncut(pool, old(pool.Now()), a)
    ensures SplitAs(old(pool.all.Txs()), old(pool.all.remotes), {}, pool.locals, pool.all.Txs(), pool.all.remotes)
  {
    ghost var v, start, turns := pool.Now(), pool.Now(), [];
    CalmSettles(pool);
    start, mid, cuts, turns := pool.RunReorg(None, [], dirty, true, checks, true);
    assert AsSet([]) == {};
    FewFitPromoted(pool, v, mid, AddrSet(dirty));
    AllPromoteExactly(pool, v, mid, cuts, AddrSet(dirty));
  }
}
