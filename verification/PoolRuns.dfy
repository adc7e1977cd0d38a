/** Whole histories of a pool. */
module PoolRuns {
  import opened Options
  import opened Transactions
  import opened TxLists
  import opened PoolViews
  import opened PoolSteps
  import opened PoolNonces
  import opened Noncers
  import opened PoolChanges
  import opened PoolTurns
  import opened TxPools

  /** One call from outside, made with the pool's lock held, or time that passes. */
  datatype Call =
    | AddTxs(txs: seq<Tx>, local: bool, checks: Tx -> Checks)
    | RemoveTx(tx: Tx, outOfBound: bool)
    | SetGasPrice(price: nat)
    | Wait(seconds: nat)
    | RunReorg(reset: Option<Head>, reinject: seq<Tx>, dirty: seq<Addr>, checks: Tx -> Checks)

  /** Transactions have a size. */
  ghost predicate Sized(c: Call) {
    && (c.AddTxs? ==> forall i :: 0 <= i < |c.txs| ==> c.txs[i].size > 0)
    && (c.RunReorg? ==> forall i :: 0 <= i < |c.reinject| ==> c.reinject[i].size > 0)
  }

  function StateAfter(s: State, c: Call): State {
    if c.RunReorg? && c.reset.Some? && c.reset.value.state.Some? then c.reset.value.state.value else s
  }

  /** No head change lowers the nonce of an account. */
  ghost predicate Climbs(s: State, calls: seq<Call>)
    decreases |calls|
  {
    calls != [] ==>
      && (forall a :: s.Nonce(a) <= StateAfter(s, calls[0]).Nonce(a))
      && Climbs(StateAfter(s, calls[0]), calls[1..])
  }

  /** Every account's pending nonces are exactly those from its state nonce to its virtual nonce, and its
      queued nonces lie at or above the virtual nonce. */
  ghost predicate NoncesLineUp(pool: TxPool)
    reads pool, pool.pendingNonces
  {
    forall a, k :: && (k in ItemsOf(pool.pending, a) <==> pool.currentState.Nonce(a) <= k < pool.pendingNonces.At(a))
                   && (k in ItemsOf(pool.queue, a) ==> pool.pendingNonces.At(a) <= k)
  }

  lemma CalmLinesUp(pool: TxPool)
    requires pool.Aligned(Calm, pool.currentState)
    ensures NoncesLineUp(pool)
  {
    forall a
      ensures forall k :: k in ItemsOf(pool.pending, a) <==> pool.currentState.Nonce(a) <= k < pool.pendingNonces.At(a)
      ensures forall k :: k in ItemsOf(pool.queue, a) ==> pool.pendingNonces.At(a) <= k
    {
      assert pool.AlignedAt(Calm, pool.currentState, a);
      SettledMeans(ItemsOf(pool.pending, a), ItemsOf(pool.queue, a), pool.pendingNonces.At(a), pool.MeansOf(a));
    }
  }

  /** One call. */
  method Apply(pool: TxPool, c: Call, gasPriceOn: bool, ghost calm: bool)
    requires pool.Valid() && pool.priced.Covers({}) && pool.config.accountSlots >= 1 && Sized(c)
    requires calm ==> gasPriceOn && pool.Aligned(Calm, pool.currentState)
    requires calm ==> forall a :: pool.currentState.Nonce(a) <= StateAfter(pool.currentState, c).Nonce(a)
    modifies pool, pool.all, pool.priced, pool.pendingNonces
    ensures pool.Valid() && pool.priced.Covers({})
    ensures pool.pendingNonces == old(pool.pendingNonces) || fresh(pool.pendingNonces)
    ensures pool.currentState == StateAfter(old(pool.currentState), c)
    ensures calm ==> pool.Aligned(Calm, pool.currentState)
    ensures c.RunReorg? ==> pool.WithinLimits()
  {
    if c.RunReorg? {
      ghost var start, mid, cuts, turns := pool.RunReorg(c.reset, c.reinject, c.dirty, gasPriceOn, c.checks, calm);
    } else {
      ApplyBetween(pool, c, gasPriceOn, if calm then Calm else Any);
    }
  }

  /** A call other than a run. It sees the state of one head only. */
  method ApplyBetween(pool: TxPool, c: Call, gasPriceOn: bool, ghost stage: Stage)
    requires pool.Valid() && pool.priced.Covers({}) && Sized(c) && !c.RunReorg?
    requires stage != Any ==> pool.Aligned(stage, pool.currentState)
    modifies pool`pending, pool`queue, pool`beats, pool`locals, pool`gasPrice, pool`clock, pool.all, pool.priced,
      pool.pendingNonces
    ensures pool.Valid() && pool.priced.Covers({})
    ensures stage != Any ==> pool.Aligned(stage, pool.currentState)
  {
    ghost var state := pool.currentState;
    pool.AlwaysAligned(state);
    match c
    case AddTxs(txs, local, checks) =>
      var outcomes, dirty;
      ghost var turns;
      outcomes, dirty, turns := pool.AddAllTxs(txs, local, gasPriceOn, checks, stage, state);
    case RemoveTx(tx, outOfBound) =>
      pool.RemoveTx(tx, outOfBound, {}, stage, state);
    case SetGasPrice(price) =>
      pool.SetGasPrice(price, gasPriceOn, stage, state);
    case Wait(seconds) =>
      pool.Tick(seconds);
  }

  /** Any sequence of calls on a new pool keeps its views consistent and its price heap complete. If the gas
      price is enabled and no head change lowers an account nonce, all nonces line up at the end. */
  method History(config: Config, locals: set<Addr>, state: State, maxGas: nat, gasPrice: nat, gasPriceOn: bool,
                 calls: seq<Call>)
    returns (pool: TxPool)
    requires config.accountSlots >= 1 && forall i :: 0 <= i < |calls| ==> Sized(calls[i])
    ensures pool.Valid() && pool.priced.Covers({})
    ensures gasPriceOn && Climbs(state, calls) ==> NoncesLineUp(pool)
    ensures calls != [] && calls[|calls| - 1].RunReorg? ==> pool.WithinLimits()
  {
    pool := new TxPool(config, locals, state, maxGas, gasPrice);
    ghost var calm := gasPriceOn && Climbs(state, calls);
    if calm {
      NewIsCalm(pool);
    }
    for i := 0 to |calls|
      invariant pool.Valid() && pool.priced.Covers({}) && pool.config == config
      invariant fresh(pool) && fresh(pool.all) && fresh(pool.priced) && fresh(pool.pendingNonces)
      invariant calm ==> gasPriceOn && pool.Aligned(Calm, pool.currentState) && Climbs(pool.currentState, calls[i..])
      invariant i > 0 && calls[i - 1].RunReorg? ==> pool.WithinLimits()
    {
      assert calls[i..][1..] == calls[i + 1..];
      Apply(pool, calls[i], gasPriceOn, calm);
    }
    if calm {
      CalmLinesUp(pool);
    }
  }

  lemma NewIsCalm(pool: TxPool)
    requires pool.pending == map[] && pool.queue == map[]
    requires forall a :: pool.pendingNonces.At(a) == pool.currentState.Nonce(a)
    ensures pool.Aligned(Calm, pool.currentState)
  {
    forall a
      ensures pool.AlignedAt(Calm, pool.currentState, a)
    {
      assert ItemsOf(pool.pending, a) == map[] && ItemsOf(pool.queue, a) == map[];
    }
  }
}
