/** Inputs for what fails: runs of a new pool that end with nonces out of line or with an executable transaction left
    in the queue. */
module PoolExamples {
  import opened Options
  import opened Transactions
  import opened TxLists
  import opened PoolViews
  import opened PoolSteps
  import opened PoolNonces
  import opened PoolGaps
  import opened PoolTruncation
  import opened PricedLists
  import opened Noncers
  import opened PoolChanges
  import opened PoolTurns
  import opened TxPools
  import opened PoolResets
  import PoolRuns

  /** A small pool on a chain that allows the largest transactions, which take four slots. */
  const CONFIG := Config(10, 16, 2, 64, 2, 128)

  /** All checks outside the pool are passed, with the gas of a plain transfer. */
  const PASSED := Checks(true, true, None, true, 21000)

  function AllPass(tx: Tx): Checks {
    PASSED
  }

  /** The least price limit a pool accepts is 1. */
  function RulesIn(s: State, maxGas: nat, gasPriceOn: bool): Rules {
    Rules(s, maxGas, 1, CONFIG.sizeLimit, {}, gasPriceOn)
  }

  ghost predicate Passes(tx: Tx, s: State, maxGas: nat, gasPriceOn: bool) {
    Validate(tx, false, RulesIn(s, maxGas, gasPriceOn), PASSED).None? && tx.size > 0
  }

  lemma PlainPasses(tx: Tx, s: State, maxGas: nat, gasPriceOn: bool)
    requires 21000 <= tx.gas <= maxGas && 0 < tx.size <= 131072 && (if gasPriceOn then 1 <= tx.price else tx.price == 0)
    requires s.Nonce(tx.from) <= tx.nonce && tx.Cost() <= s.Balance(tx.from)
    ensures Passes(tx, s, maxGas, gasPriceOn)
  {
  }

  /** A pool in use: nothing local, and the smallest floor. */
  ghost predicate InUse(pool: TxPool)
    reads pool, pool.all, pool.priced
  {
    && pool.Valid() && pool.priced.Covers({}) && pool.config == CONFIG
    && pool.RulesNow(true) == RulesIn(pool.currentState, pool.currentMaxGas, true)
  }

  /** The nonces of account `a` do not line up. */
  ghost predicate OutOfLine(pool: TxPool, a: Addr)
    reads pool, pool.pendingNonces
  {
    !Lined(ItemsOf(pool.pending, a), ItemsOf(pool.queue, a), pool.pendingNonces.At(a), pool.currentState.Nonce(a))
  }

  /** Adds a remote transaction with a new nonce to a pool with room. */
  method AddFresh(pool: TxPool, tx: Tx, gasPriceOn: bool, ghost stage: Stage, ghost before: State)
    requires InUse(pool) && pool.Aligned(stage, before)
    requires Passes(tx, pool.currentState, pool.currentMaxGas, gasPriceOn)
    requires |pool.all.Txs()| + NumSlots(tx) <= pool.Limit()
    requires tx.nonce !in ItemsOf(pool.pending, tx.from) && tx.nonce !in ItemsOf(pool.queue, tx.from)
    modifies pool`pending, pool`queue, pool`beats, pool`locals, pool.all, pool.priced, pool.pendingNonces
    ensures InUse(pool) && pool.Aligned(stage, before) && pool.pending == old(pool.pending)
    ensures pool.queue == old(pool.queue)[tx.from := Added(ListOf(old(pool.queue), tx.from, false), tx)]
    ensures pool.all.Txs() == old(pool.all.Txs()) + {tx} && pool.all.remotes == old(pool.all.remotes) + {tx}
    ensures pool.pendingNonces.At(tx.from) == old(pool.pendingNonces.At(tx.from))
    ensures multiset(pool.priced.remotes) == multiset(old(pool.priced.remotes)) + multiset{tx}
    ensures pool.priced.stales == old(pool.priced.stales)
  {
    ghost var u, rules := pool.Now(), pool.RulesNow(gasPriceOn);
    ghost var t;
    var r;
    r, t := pool.AddOne(tx, false, gasPriceOn, PASSED, stage, before);
    FreshTurn(u, t, tx, rules);
    assert pool.pendingNonces.At(tx.from) == pool.Now().virtual[tx.from];
  }

  /** Adding a valid transaction with a new nonce to a pool with room. */
  lemma FreshTurn(u: View, t: Turn, tx: Tx, rules: Rules)
    requires TurnAs(u, t, tx, false, rules, PASSED, CONFIG) && Consistent(u.pending, u.queue, u.txs)
    requires Validate(tx, tx.from in rules.locals, rules, PASSED).None? && rules.locals == {} && tx.size > 0
    requires |u.txs| + NumSlots(tx) <= LimitOf(CONFIG)
    requires tx.nonce !in ItemsOf(u.pending, tx.from) && tx.nonce !in ItemsOf(u.queue, tx.from)
    ensures t.after.pending == u.pending && t.locals == {} && t.outcome == Accepted(false)
    ensures t.after.queue == u.queue[tx.from := Added(ListOf(u.queue, tx.from, false), tx)]
    ensures t.after.txs == u.txs + {tx} && t.after.remotes == u.remotes + {tx}
    ensures tx.from in u.virtual && tx.from in t.after.virtual && t.after.virtual[tx.from] == u.virtual[tx.from]
  {
    OwnLists(u.pending, u.queue, u.txs, tx.from);
    assert tx !in u.txs;
    assert t.outcome == Accepted(false) && t.outbid == None;
    assert BackedAt(u, t.after, tx.from);
  }

  /** A new pool with one transaction queued. */
  method OneQueued(was: State, maxGas: nat, tx: Tx, gasPriceOn: bool) returns (pool: TxPool)
    requires Passes(tx, was, maxGas, gasPriceOn) && NumSlots(tx) == 1
    ensures fresh(pool) && fresh(pool.all) && fresh(pool.priced) && fresh(pool.pendingNonces)
    ensures InUse(pool) && pool.currentState == was && pool.currentMaxGas == maxGas
    ensures pool.all.Txs() == {tx} && pool.all.remotes == {tx}
    ensures pool.pending == map[] && pool.queue == map[tx.from := Added(TxListValue(false, map[], 0, 0), tx)]
    ensures gasPriceOn ==> pool.Aligned(Calm, was) && pool.pendingNonces.At(tx.from) == was.Nonce(tx.from)
  {
    pool := new TxPool(CONFIG, {}, was, maxGas, 1);
    pool.AlwaysAligned(was);
    if gasPriceOn {
      PoolRuns.NewIsCalm(pool);
    }
    AddFresh(pool, tx, gasPriceOn, if gasPriceOn then Calm else Any, was);
  }

  /** `start` comes of `v` by the turns of what is reinjected. */
  ghost predicate Began(v: View, start: View, turns: seq<Turn>, dropped: seq<Tx>, rules: Rules) {
    && Turns(v, turns, dropped, false, rules, AllPass, CONFIG) && start == ViewAfter(v, turns) && Backed(v, v)
    && Consistent(v.pending, v.queue, v.txs) && Consistent(start.pending, start.queue, start.txs) && v.remotes <= v.txs
  }

  /** Account `a` is left as a run from `v` leaves it that meets no limit. */
  ghost predicate LeftFrom(pool: TxPool, v: View, gasPriceOn: bool, a: Addr)
    reads pool, pool.pendingNonces
  {
    && a in v.virtual
    && var p, q, means := ItemsOf(v.pending, a), ListOf(v.queue, a, false), pool.MeansOf(a);
      && (OutOfLine(pool, a) <==> !LinesUp(p, q, means, gasPriceOn, v.virtual[a]))
      && (!pool.FreeAt(a) <==> Waits(p, q, means, gasPriceOn, pool.CapOf(a), v.virtual[a]))
  }

  lemma AllLeft(pool: TxPool, restart: View, start: View, mid: View, c: Cuts, gasPriceOn: bool)
    requires restart.virtual == imap a: Addr | true :: pool.currentState.Nonce(a)
    requires Consistent(start.pending, start.queue, start.txs) && Backed(restart, start)
    requires pool.ResetFrom(start, mid, gasPriceOn) && pool.TruncatedAs(mid.pending, mid.queue, c)
    requires forall a :: ResetWell(pool, start, mid, c, gasPriceOn, a)
    requires pool.Fits(mid.pending, mid.queue)
    ensures forall a :: LeftFrom(pool, start, gasPriceOn, a)
  {
    forall a
      ensures LeftFrom(pool, start, gasPriceOn, a)
    {
      assert BackedAt(restart, start, a) && pool.ResetFromAt(start, mid, gasPriceOn, a);
      assert ResetWell(pool, start, mid, c, gasPriceOn, a);
      FollowsUncut(pool, start, mid, c, gasPriceOn, a);
    }
  }

  /** The head changes, and `dropped` is reinjected; as long as the pool is left with few transactions, every account is
      left as the reset leaves it. */
  method FollowSmall(pool: TxPool, now: State, maxGas: nat, dropped: seq<Tx>, gasPriceOn: bool)
    returns (ghost start: View, ghost turns: seq<Turn>)
    requires InUse(pool) && forall i :: 0 <= i < |dropped| ==> dropped[i].size > 0
    modifies pool`pending, pool`queue, pool`beats, pool`locals, pool`currentState, pool`currentMaxGas,
      pool`pendingNonces, pool.all, pool.priced, pool.pendingNonces
    ensures pool.currentState == now && pool.currentMaxGas == maxGas
    ensures Began(old(pool.Restart(now)), start, turns, dropped, RulesIn(now, maxGas, gasPriceOn))
    ensures |start.txs| <= 2 ==> forall a :: LeftFrom(pool, start, gasPriceOn, a)
  {
    ghost var restart, mid, cuts := pool.Restart(now), pool.Now(), Cuts(0, {}, None, 0);
    start, mid, cuts, turns := FollowHead(pool, Head(Some(now), maxGas), dropped, [], gasPriceOn, AllPass);
    assert Began(restart, start, turns, dropped, RulesIn(now, maxGas, gasPriceOn));
    if |start.txs| <= 2 {
      TurnsBack(restart, turns, dropped, false, RulesIn(now, maxGas, gasPriceOn), AllPass, CONFIG);
      AllLeft(pool, restart, start, mid, cuts, gasPriceOn);
    }
  }

  /** Nothing is reinjected. */
  method FollowAlone(pool: TxPool, now: State, maxGas: nat, gasPriceOn: bool)
    requires InUse(pool) && |pool.all.Txs()| <= 2
    modifies pool`pending, pool`queue, pool`beats, pool`locals, pool`currentState, pool`currentMaxGas,
      pool`pendingNonces, pool.all, pool.priced, pool.pendingNonces
    ensures pool.currentState == now && pool.currentMaxGas == maxGas
    ensures forall a :: LeftAlone(pool, old(pool.pending), old(pool.queue), gasPriceOn, a)
  {
    ghost var p, q := pool.pending, pool.queue;
    ghost var start, turns := FollowSmall(pool, now, maxGas, [], gasPriceOn);
    forall a
      ensures LeftAlone(pool, p, q, gasPriceOn, a)
    {
      assert LeftFrom(pool, start, gasPriceOn, a);
    }
  }

  ghost predicate LeftAlone(pool: TxPool, pending: Accounts, queue: Accounts, gasPriceOn: bool, a: Addr)
    reads pool, pool.pendingNonces
  {
    var p, q, means := ItemsOf(pending, a), ListOf(queue, a, false), pool.MeansOf(a);
    && (OutOfLine(pool, a) <==> !LinesUp(p, q, means, gasPriceOn, means.nonce))
    && (!pool.FreeAt(a) <==> Waits(p, q, means, gasPriceOn, pool.CapOf(a), means.nonce))
  }

  /** The gas price is disabled. A transaction is added that costs no more than its sender has, and the new head leaves
      the sender less. It is promoted and dropped again, but the virtual nonce has moved past it. */
  method PricelessRun(was: State, now: State, maxGas: nat, tx: Tx) returns (pool: TxPool)
    requires Passes(tx, was, maxGas, false) && NumSlots(tx) == 1
    requires was.Nonce(tx.from) == now.Nonce(tx.from) == tx.nonce && now.Balance(tx.from) < tx.Cost()
    ensures OutOfLine(pool, tx.from)
  {
    pool := OneQueued(was, maxGas, tx, false);
    ghost var q := pool.queue;
    FollowAlone(pool, now, maxGas, false);
    UnpaidRun(ListOf(q, tx.from, false), MeansIn(now, maxGas, tx.from), tx);
    assert LeftAlone(pool, map[], q, false, tx.from);
  }

  lemma UnpaidRun(q: TxListValue, means: Means, tx: Tx)
    requires q == Added(TxListValue(false, map[], 0, 0), tx) && tx.nonce == means.nonce && !Payable(tx, means)
    requires tx.size > 0
    ensures !LinesUp(map[], q, means, false, means.nonce)
  {
    SweptFacts(q, means, false, tx.from);
    RunParts(Swept(q, means, false).items, means.nonce, means.nonce);
    assert AtLeast(q.items, means.nonce) == q.items && q.items - {} == q.items;
    var run := Promotable(q, means, false, means.nonce);
    assert map[] + run == run;
    assert means.nonce in run && run[means.nonce] == tx;
  }

  /** A plain transfer of `value`. */
  function Transfer(from: Addr, nonce: nat, price: nat, value: nat): Tx {
    Tx(from, nonce, price, 21000, value, 110, 0)
  }

  method PricelessInput() returns (pool: TxPool)
    ensures exists a :: OutOfLine(pool, a)
  {
    pool := PricelessRun(State(map[], map[1 := 9]), State(map[], map[1 := 5]), 8000000, Transfer(1, 0, 0, 9));
  }

  /** Promotion of a queue of one transaction, whose turn it is. */
  lemma OneRuns(tx: Tx, l: TxListValue, means: Means, cap: Option<nat>)
    requires l == Added(TxListValue(false, map[], 0, 0), tx) && tx.size > 0 && Payable(tx, means)
    requires tx.nonce == means.nonce
    ensures Promotable(l, means, true, tx.nonce) == map[tx.nonce := tx] == l.items
    ensures Queued(l, means, true, tx.nonce, cap).items == map[]
  {
    SweepSpares(l, means, tx.from);
    assert AtLeast(l.items, means.nonce) == l.items;
    assert means.nonce in l.items && Least(l.items.Keys) == means.nonce;
    RunEndIs(l.items.Keys, means.nonce, means.nonce + 1);
    assert Below(l.items, means.nonce + 1) == l.items;
    assert l.items - l.items.Keys == map[];
  }

  /** Everything in the pool is the pending transaction `tx`, which is remote. */
  ghost predicate Alone(pool: TxPool, tx: Tx)
    reads pool, pool.all
  {
    && (forall a :: ItemsOf(pool.pending, a) == if a == tx.from then map[tx.nonce := tx] else map[])
    && (forall a :: ItemsOf(pool.queue, a) == map[])
    && pool.all.Txs() == {tx} && pool.all.remotes == {tx}
  }

  lemma PromotedAlone(pool: TxPool, v: View, w: View, tx: Tx)
    requires tx.size > 0 && Payable(tx, pool.MeansOf(tx.from)) && tx.nonce == pool.currentState.Nonce(tx.from)
    requires v.pending == map[] && v.queue == map[tx.from := Added(TxListValue(false, map[], 0, 0), tx)]
    requires tx.from in v.virtual && v.virtual[tx.from] == tx.nonce
    requires pool.PromotedFrom(v, w, true, {tx.from}) && pool.pending == w.pending && pool.queue == w.queue
    ensures forall a :: ItemsOf(pool.pending, a) == if a == tx.from then map[tx.nonce := tx] else map[]
    ensures forall a :: ItemsOf(pool.queue, a) == map[]
  {
    var l := v.queue[tx.from];
    OneRuns(tx, l, pool.MeansOf(tx.from), pool.CapOf(tx.from));
    var none: Items := map[];
    assert none + l.items == l.items == map[tx.nonce := tx];
    forall a
      ensures ItemsOf(pool.pending, a) == if a == tx.from then map[tx.nonce := tx] else map[]
      ensures ItemsOf(pool.queue, a) == map[]
    {
      assert pool.PromotedFromAt(v, w, true, {tx.from}, a);
    }
  }

  /** A new pool with one transaction pending, added and then promoted in a run. */
  method OnePending(was: State, maxGas: nat, tx: Tx) returns (pool: TxPool)
    requires Passes(tx, was, maxGas, true) && NumSlots(tx) == 1 && tx.nonce == was.Nonce(tx.from)
    ensures fresh(pool) && fresh(pool.all) && fresh(pool.priced) && fresh(pool.pendingNonces)
    ensures InUse(pool) && pool.currentState == was && pool.currentMaxGas == maxGas
    ensures pool.Aligned(Calm, was) && Alone(pool, tx)
  {
    pool := OneQueued(was, maxGas, tx, true);
    assert AddrSet([tx.from]) == {tx.from};
    ghost var v := pool.Now();
    ghost var mid, cuts := FollowDirty(pool, [tx.from], AllPass);
    PromotedAlone(pool, v, mid, tx);
    OnlyOne(pool, tx, v);
  }

  lemma OnlyOne(pool: TxPool, tx: Tx, v: View)
    requires pool.Valid() && v.remotes == {tx}
    requires forall a :: ItemsOf(pool.pending, a) == if a == tx.from then map[tx.nonce := tx] else map[]
    requires forall a :: ItemsOf(pool.queue, a) == map[]
    requires SplitAs(v.txs, v.remotes, {}, pool.locals, pool.all.Txs(), pool.all.remotes)
    ensures pool.all.Txs() == {tx} && pool.all.remotes == {tx}
  {
    forall t
      ensures t in pool.all.Txs() <==> t == tx
    {
      OwnLists(pool.pending, pool.queue, pool.all.Txs(), t.from);
    }
    assert SplitAt(v.txs, v.remotes, {}, pool.locals, pool.all.remotes, tx);
  }

  /** A transaction is pending and its successor has just been queued, and both are remote. */
  ghost predicate Followed(pool: TxPool, tx: Tx, next: Tx)
    reads pool, pool.all
  {
    && ItemsOf(pool.pending, tx.from) == map[tx.nonce := tx] && ItemsOf(pool.queue, tx.from) == map[next.nonce := next]
    && pool.all.Txs() == {tx, next} && pool.all.remotes == {tx, next}
  }

  /** A payable transaction that is due and its payable successor, both small. */
  ghost predicate Pair(was: State, maxGas: nat, tx: Tx, next: Tx) {
    && Passes(tx, was, maxGas, true) && NumSlots(tx) == 1 && tx.nonce == was.Nonce(tx.from)
    && Passes(next, was, maxGas, true) && NumSlots(next) == 1 && next.from == tx.from && next.nonce == tx.nonce + 1
  }

  method Successors(was: State, maxGas: nat, tx: Tx, next: Tx) returns (pool: TxPool)
    requires Pair(was, maxGas, tx, next)
    ensures fresh(pool) && fresh(pool.all) && fresh(pool.priced) && fresh(pool.pendingNonces)
    ensures InUse(pool) && pool.currentState == was && pool.currentMaxGas == maxGas
    ensures pool.Aligned(Calm, was) && Followed(pool, tx, next)
  {
    pool := OnePending(was, maxGas, tx);
    assert ItemsOf(pool.queue, tx.from) == map[] && ItemsOf(pool.pending, tx.from) == map[tx.nonce := tx];
    AddFresh(pool, next, true, Calm, was);
  }

  /** The new head leaves the account as it was. The virtual nonce starts over, promotion looks below the pending
      transaction, and its successor stays where it is. */
  method StalledRun(was: State, maxGas: nat, tx: Tx, next: Tx) returns (pool: TxPool)
    requires Pair(was, maxGas, tx, next)
    ensures pool.currentState == was && !pool.FreeAt(tx.from)
  {
    pool := Successors(was, maxGas, tx, next);
    ghost var p, q, txs := pool.pending, pool.queue, pool.all.Txs();
    OwnLists(p, q, txs, tx.from);
    FollowAlone(pool, was, maxGas, true);
    WaitsBehind(ListOf(p, tx.from, true), ListOf(q, tx.from, false), MeansIn(was, maxGas, tx.from),
                pool.CapOf(tx.from), tx, next);
    assert LeftAlone(pool, p, q, true, tx.from);
  }

  lemma WaitsBehind(p: TxListValue, q: TxListValue, means: Means, cap: Option<nat>, tx: Tx, next: Tx)
    requires p.items == map[tx.nonce := tx] && q.items == map[next.nonce := next] && ListOk(q, false, tx.from)
    requires tx.nonce == means.nonce && next.nonce == tx.nonce + 1 && Payable(tx, means) && Payable(next, means)
    requires cap != Some(0)
    ensures Waits(p.items, q, means, true, cap, means.nonce)
  {
    SweepSpares(q, means, tx.from);
    assert AtLeast(q.items, means.nonce) == q.items;
    RunParts(Swept(q, means, true).items, means.nonce, means.nonce);
    var m := Executable(p.items, q, means, true, means.nonce);
    assert p.items + map[] == p.items && m == p.items;
    RunEndIs(m.Keys, means.nonce, next.nonce);
  }

  method StalledInput() returns (pool: TxPool)
    ensures exists a :: !pool.FreeAt(a)
  {
    pool := StalledRun(State(map[1 := 5], map[1 := 1000000]), 8000000, Transfer(1, 5, 1, 0), Transfer(1, 6, 1, 0));
  }

  /** Reinjecting a valid transaction and one that is refused into a pool with room. */
  lemma OneTaken(p: Accounts, q: Accounts, tx: Tx, bad: Tx, rules: Rules, bump: nat)
    requires tx.nonce !in ItemsOf(p, tx.from) && tx.nonce !in ItemsOf(q, tx.from)
    requires Validate(tx, tx.from in rules.locals, rules, PASSED).None?
    requires Validate(bad, bad.from in rules.locals, rules, PASSED).Some?
    ensures TakenAll(p, q, [tx, bad], rules, AllPass, bump)
         == (p, q[tx.from := Added(ListOf(q, tx.from, false), tx)])
  {
    assert [tx, bad][..1] == [tx] && [tx][..0] == [];
    assert TakenAll(p, q, [tx], rules, AllPass, bump) == (p, q[tx.from := Added(ListOf(q, tx.from, false), tx)]);
  }

  /** A pending transaction is left above a gap by one that is reinjected at the lowered state nonce. */
  lemma GapOpens(p: Items, q: TxListValue, means: Means, tx: Tx, low: Tx)
    requires ListOk(q, false, tx.from) && p == map[tx.nonce := tx] && q.items == map[low.nonce := low]
    requires low.nonce == means.nonce && low.nonce + 1 < tx.nonce && Payable(tx, means) && Payable(low, means)
    ensures !LinesUp(p, q, means, true, means.nonce)
  {
    SweepSpares(q, means, tx.from);
    assert AtLeast(q.items, means.nonce) == q.items;
    var run, m := Promotable(q, means, true, means.nonce), Executable(p, q, means, true, means.nonce);
    assert Run(q.items, low.nonce) == q.items by {
      assert low.nonce in q.items && Least(q.items.Keys) == low.nonce;
      RunEndIs(q.items.Keys, low.nonce, low.nonce + 1);
    }
    assert m == map[tx.nonce := tx, low.nonce := low];
    RunEndIs(m.Keys, low.nonce, low.nonce + 1);
    assert PayableTo(m, tx.nonce, means) && tx.nonce in m;
  }

  /** The new head lowers the state nonce by two, below a pending transaction. Both transactions that the reorganisation
      dropped are reinjected, and the second of them is refused, because it pays less than the pool accepts. */
  method LoweredRun(was: State, now: State, maxGas: nat, tx: Tx, low: Tx, cheap: Tx) returns (pool: TxPool)
    requires Passes(tx, was, maxGas, true) && NumSlots(tx) == 1 && tx.nonce == was.Nonce(tx.from)
    requires Passes(low, now, maxGas, true) && NumSlots(low) == 1 && Payable(tx, MeansIn(now, maxGas, tx.from))
    requires low.from == cheap.from == tx.from && low.nonce == now.Nonce(tx.from)
    requires cheap.nonce == low.nonce + 1 && tx.nonce == cheap.nonce + 1
    requires cheap.price == 0 && cheap.size > 0 && NumSlots(cheap) == 1
    ensures OutOfLine(pool, tx.from)
  {
    pool := OnePending(was, maxGas, tx);
    FollowLowered(pool, now, maxGas, tx, low, cheap);
  }

  method FollowLowered(pool: TxPool, now: State, maxGas: nat, tx: Tx, low: Tx, cheap: Tx)
    requires InUse(pool) && Alone(pool, tx) && NumSlots(tx) == 1 && Payable(tx, MeansIn(now, maxGas, tx.from))
    requires Passes(low, now, maxGas, true) && NumSlots(low) == 1 && low.nonce == now.Nonce(tx.from)
    requires low.from == cheap.from == tx.from && cheap.nonce == low.nonce + 1 && tx.nonce == cheap.nonce + 1
    requires cheap.price == 0 && cheap.size > 0 && NumSlots(cheap) == 1
    modifies pool`pending, pool`queue, pool`beats, pool`locals, pool`currentState, pool`currentMaxGas,
      pool`pendingNonces, pool.all, pool.priced, pool.pendingNonces
    ensures OutOfLine(pool, tx.from)
  {
    ghost var restart, rules := pool.Restart(now), RulesIn(now, maxGas, true);
    ghost var start, turns := FollowSmall(pool, now, maxGas, [low, cheap], true);
    GapAtStart(restart, start, turns, rules, MeansIn(now, maxGas, tx.from), tx, low, cheap);
    assert LeftFrom(pool, start, true, tx.from);
  }

  lemma GapAtStart(v: View, start: View, turns: seq<Turn>, rules: Rules, means: Means, tx: Tx, low: Tx, cheap: Tx)
    requires ItemsOf(v.pending, tx.from) == map[tx.nonce := tx] && ItemsOf(v.queue, tx.from) == map[]
    requires Began(v, start, turns, [low, cheap], rules) && |v.txs| == 1
    requires tx.from in v.virtual && v.virtual[tx.from] == means.nonce
    requires low.from == tx.from && low.nonce == means.nonce && low.nonce + 1 < tx.nonce
    requires NumSlots(low) == 1 && NumSlots(cheap) == 1 && Payable(tx, means) && Payable(low, means)
    requires Validate(low, low.from in rules.locals, rules, PASSED).None?
    requires Validate(cheap, cheap.from in rules.locals, rules, PASSED).Some?
    ensures var a := tx.from;
      && |start.txs| <= 2 && a in start.virtual && start.virtual[a] == means.nonce
      && !LinesUp(ItemsOf(start.pending, a), ListOf(start.queue, a, false), means, true, means.nonce)
  {
    assert forall i :: RoomAt(|v.txs|, [low, cheap], CONFIG, i);
    TurnsTake(v, turns, [low, cheap], rules, AllPass, CONFIG);
    OneTaken(v.pending, v.queue, low, cheap, rules, CONFIG.priceBump);
    OwnLists(start.pending, start.queue, start.txs, tx.from);
    TurnsBack(v, turns, [low, cheap], false, rules, AllPass, CONFIG);
    assert BackedAt(v, start, tx.from);
    assert Added(ListOf(v.queue, tx.from, false), low).items == map[low.nonce := low];
    GapOpens(ItemsOf(start.pending, tx.from), ListOf(start.queue, tx.from, false), means, tx, low);
    TwoAtMost(v, start, turns, rules, low, cheap);
  }

  lemma TwoAtMost(v: View, start: View, turns: seq<Turn>, rules: Rules, low: Tx, cheap: Tx)
    requires Turns(v, turns, [low, cheap], false, rules, AllPass, CONFIG) && start == ViewAfter(v, turns)
    requires |v.txs| == 1 && v.remotes <= v.txs && Validate(cheap, cheap.from in rules.locals, rules, PASSED).Some?
    ensures |start.txs| <= 2
  {
    var u := ViewAfter(v, turns[..1]);
    assert [low, cheap][..1] == [low] && turns[..1][..0] == [];
    LastTurn(v, turns, [low, cheap], false, rules, AllPass, CONFIG);
    LastTurn(v, turns[..1], [low], false, rules, AllPass, CONFIG);
    TurnSplits(v, turns[0], low, rules, PASSED, CONFIG);
    assert u.txs <= v.txs + {low};
    assert start.txs <= u.txs;
    SubsetSize(start.txs, v.txs + {low});
  }

  method LoweredInput() returns (pool: TxPool)
    ensures exists a :: OutOfLine(pool, a)
  {
    var was, now := State(map[1 := 5], map[1 := 1000000]), State(map[1 := 3], map[1 := 1000000]);
    pool := LoweredRun(was, now, 8000000, Transfer(1, 5, 1, 0), Transfer(1, 3, 1, 0), Transfer(1, 4, 0, 0));
  }

  /** The cheaper of two remote transactions is all that goes for one slot. */
  lemma CheaperGoes(tx: Tx, next: Tx, dropped: set<Tx>)
    requires CheapestFirst({tx, next}, dropped) && Minimal(dropped, 1) && tx.price < next.price
    requires tx.size > 0 && next.size > 0
    ensures dropped == {tx}
  {
    var d :| d in dropped && SlotsOf(dropped - {d}) < 1;
    SlotsAtLeastCount(dropped - {d});
    assert dropped - {d} == {} && dropped == {d};
    assert CheapEnough({tx, next}, dropped, d);
  }

  lemma TwoSlots(tx: Tx, next: Tx)
    requires tx != next && NumSlots(tx) == 1 && NumSlots(next) == 1
    ensures SlotsOf({tx, next}) == 2
  {
    SlotsAdd({}, tx);
    assert {} + {tx} == {tx};
    SlotsAdd({tx}, next);
    assert {tx} + {next} == {tx, next};
  }

  /** A transaction of three slots comes to a pool with two of four slots taken. The cheaper one there goes. */
  lemma RichEvicts(u: View, t: Turn, tx: Tx, next: Tx, rich: Tx, rules: Rules)
    requires TurnAs(u, t, rich, false, rules, PASSED, CONFIG) && rules.locals == {} && rules.gasPriceOn
    requires u.txs == {tx, next} && u.remotes == {tx, next} && rich != tx && rich != next && tx != next
    requires Validate(rich, false, rules, PASSED).None? && NumSlots(rich) == 3
    requires tx.size > 0 && next.size > 0 && NumSlots(tx) == 1 && NumSlots(next) == 1
    requires tx.price < next.price && tx.price < rich.price && next.from != rich.from
    ensures next in t.after.txs && t.after.txs <= {next, rich}
  {
    TwoSlots(tx, next);
    assert tx in u.remotes && !CheapestOf(u.remotes, rich);
    CheaperGoes(tx, next, t.dropped);
    assert {tx, next} - {tx} == {next};
  }

  /** What is left of the sender of `tx` once `tx` is gone. */
  lemma FallsBack(v: View, w: View, tx: Tx, next: Tx)
    requires Backed(v, w) && Consistent(w.pending, w.queue, w.txs)
    requires ItemsOf(v.pending, tx.from) == map[tx.nonce := tx]
    requires tx.from in v.virtual && v.virtual[tx.from] == next.nonce
    requires next.from == tx.from && next.nonce == tx.nonce + 1 && next in w.txs
    requires forall t :: t in w.txs && t.from == tx.from ==> t == next
    ensures var a := tx.from;
      && ItemsOf(w.pending, a) == map[] && ItemsOf(w.queue, a) == map[next.nonce := next]
      && a in w.virtual && w.virtual[a] == tx.nonce
  {
    var a := tx.from;
    assert BackedAt(v, w, a);
    OwnLists(w.pending, w.queue, w.txs, a);
    var p, q := ItemsOf(w.pending, a), ItemsOf(w.queue, a);
    if tx.nonce in p {
      assert Holds(p, p[tx.nonce]);
      assert false;
    }
    assert p.Keys == {};
    assert Holds(q, next);
    forall k | k in q
      ensures k == next.nonce
    {
      assert Holds(q, q[k]) && q[k] in w.txs;
    }
  }

  /** Reinjection of `rich` has evicted `tx`, which the new head has mined: its successor is back in the queue, and the
      virtual nonce of their sender is `tx`'s nonce again, below the state nonce. */
  lemma StrandedAtStart(v: View, start: View, turns: seq<Turn>, rules: Rules, tx: Tx, next: Tx, rich: Tx)
    requires Turns(v, turns, [rich], false, rules, AllPass, CONFIG) && start == ViewAfter(v, turns)
    requires Backed(v, v) && Consistent(start.pending, start.queue, start.txs)
    requires v.txs == {tx, next} && v.remotes == {tx, next} && rules.locals == {} && rules.gasPriceOn
    requires ItemsOf(v.pending, tx.from) == map[tx.nonce := tx]
    requires tx.from in v.virtual && v.virtual[tx.from] == next.nonce
    requires next.from == tx.from != rich.from && next.nonce == tx.nonce + 1
    requires tx.size > 0 && next.size > 0 && NumSlots(tx) == 1 && NumSlots(next) == 1 && NumSlots(rich) == 3
    requires tx.price < next.price && tx.price < rich.price && Validate(rich, false, rules, PASSED).None?
    ensures var a := tx.from;
      && ItemsOf(start.pending, a) == map[] && ItemsOf(start.queue, a) == map[next.nonce := next]
      && a in start.virtual && start.virtual[a] == tx.nonce && |start.txs| <= 2
  {
    assert turns[..0] == [];
    LastTurn(v, turns, [rich], false, rules, AllPass, CONFIG);
    RichEvicts(v, turns[0], tx, next, rich, rules);
    TurnsBack(v, turns, [rich], false, rules, AllPass, CONFIG);
    FallsBack(v, start, tx, next);
    SubsetSize(start.txs, {next, rich});
  }

  /** The head has moved past `tx`, but reinjection evicts `tx` before the pool has let go of it. The virtual nonce
      falls below the state nonce, and the successor of `tx`, executable by now, stays in the queue. The next run leaves
      it there, although it is told of the account. */
  method StrandedRun(was: State, now: State, maxGas: nat, tx: Tx, next: Tx, rich: Tx) returns (pool: TxPool)
    requires Pair(was, maxGas, tx, next) && Passes(rich, now, maxGas, true) && NumSlots(rich) == 3
    requires (forall a :: was.Nonce(a) <= now.Nonce(a)) && now.Nonce(tx.from) == next.nonce
    requires Payable(next, MeansIn(now, maxGas, tx.from))
    requires rich.from != tx.from && tx.price < next.price && tx.price < rich.price
    ensures pool.Aligned(Calm, pool.currentState) && !pool.FreeAt(tx.from)
  {
    pool := Successors(was, maxGas, tx, next);
    ghost var restart, rules := pool.Restart(now), RulesIn(now, maxGas, true);
    var dropped := [rich];
    ghost var start, mid, cuts, turns;
    start, mid, cuts, turns := FollowHead(pool, Head(Some(now), maxGas), dropped, [], true, AllPass);
    StrandedAtStart(restart, start, turns, rules, tx, next, rich);
    assert ResetWell(pool, start, mid, cuts, true, tx.from) && pool.ResetFromAt(start, mid, true, tx.from);
    LeftStranded(pool, start, mid, cuts, tx, next);
    StrandsAgain(pool, tx.from, start);
  }

  lemma LeftStranded(pool: TxPool, start: View, mid: View, cuts: Cuts, tx: Tx, next: Tx)
    requires Consistent(start.pending, start.queue, start.txs) && next.from == tx.from && pool.config == CONFIG
    requires ItemsOf(start.pending, tx.from) == map[] && ItemsOf(start.queue, tx.from) == map[next.nonce := next]
    requires tx.from in start.virtual && start.virtual[tx.from] == tx.nonce < next.nonce
    requires next.nonce == pool.currentState.Nonce(tx.from) && Payable(next, pool.MeansOf(tx.from))
    requires pool.ResetFromAt(start, mid, true, tx.from) && ResetWell(pool, start, mid, cuts, true, tx.from)
    requires pool.TruncatedAs(mid.pending, mid.queue, cuts) && pool.Fits(mid.pending, mid.queue)
    ensures pool.StrandedAt(tx.from)
  {
    var a, means := tx.from, pool.MeansOf(tx.from);
    OwnLists(start.pending, start.queue, start.txs, a);
    FollowsUncut(pool, start, mid, cuts, true, a);
    StrandedReset(ListOf(start.pending, a, true), ListOf(start.queue, a, false), means, true, pool.CapOf(a), a,
                  tx.nonce);
    SweepSpares(ListOf(start.queue, a, false), means, a);
  }

  /** A run without a head change leaves a stranded account stranded. */
  method StrandsAgain(pool: TxPool, a: Addr, ghost start: View)
    requires InUse(pool) && pool.Aligned(Calm, pool.currentState) && pool.StrandedAt(a)
    requires pool.ThinnedFrom(start) && |start.txs| <= 2
    modifies pool`pending, pool`queue, pool`beats, pool`locals, pool`currentState, pool`currentMaxGas,
      pool`pendingNonces, pool.all, pool.priced, pool.pendingNonces
    ensures pool.Aligned(Calm, pool.currentState) && !pool.FreeAt(a)
  {
    SubsetSize(pool.all.Txs(), start.txs);
    assert AddrSet([a]) == {a};
    ghost var v := pool.Now();
    assert StrandedIn(v, pool.currentState, a);
    ghost var mid, again := FollowDirty(pool, [a], AllPass);
    assert PromotedUncut(pool, v, a);
  }

  /** Such an input: the reinjected transaction has 65537 bytes, half of what the chain allows, and the gas for that. */
  method StrandedInput() returns (pool: TxPool)
    ensures exists a :: !pool.FreeAt(a)
  {
    var funds: map<Addr, nat> := map[1 := 1000000, 2 := 20000000];
    var was, now := State(map[], funds), State(map[1 := 1], funds);
    var tx, next, rich := Transfer(1, 0, 1, 0), Transfer(1, 1, 2, 0), Tx(2, 0, 2, 5000000, 0, 65537, 0);
    assert was.Balance(1) == now.Balance(1) == 1000000 && now.Balance(2) == 20000000;
    PlainPasses(tx, was, 8000000, true);
    PlainPasses(next, was, 8000000, true);
    PlainPasses(rich, now, 8000000, true);
    pool := StrandedRun(was, now, 8000000, tx, next, rich);
  }
}
