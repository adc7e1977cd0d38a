/** What the operations of the pool make of its views, as values. */
module PoolChanges {
  import opened Options
  import opened Transactions
  import opened TxLists
  import opened PoolViews
  import opened PoolSteps
  import opened PoolNonces
  import opened PoolGaps
  import opened PoolTruncation
  import opened PoolQueues
  import opened PricedLists
  import opened Noncers

  /** The limits of the pool; `sizeLimit` is the chain's limit on the size of a transaction, in units of 1024 bytes. */
  datatype Config = Config(priceBump: nat, accountSlots: nat, globalSlots: nat, accountQueue: nat, globalQueue: nat,
                           sizeLimit: nat)

  /** A head the pool is reset to: the state found at it, unless that is missing, and its gas limit. */
  datatype Head = Head(state: Option<State>, maxGas: nat)

  datatype Error =
    | AlreadyKnown | TypeNotSupported | OversizedData | GasLimit | InvalidSender | InvalidGasPrice | NotPermitted
    | Underpriced | NonceTooLow | InsufficientFunds | IntrinsicGas | PoolOverflow | ReplaceUnderpriced

  /** What packages outside the pool say of a transaction: its type is supported, its signature is in order, the private
      transaction it marks, its sender is permitted to send it, and its intrinsic gas. */
  datatype Checks = Checks(typed: bool, signed: bool, inner: Option<Inner>, permitted: bool, intrinsic: nat)

  datatype Inner = Inner(tx: Tx, checks: Checks)

  datatype Outcome = Accepted(replaced: bool) | Refused(error: Error)

  function Min(a: nat, b: nat): nat {
    if a < b then a else b
  }

  /** A pending transaction is gone and its account's later ones are back in the queue. */
  ghost predicate PendingGone(p: Accounts, q: Accounts, p': Accounts, q': Accounts, tx: Tx) {
    var a, k := tx.from, tx.nonce;
    && a in p && Holds(p[a].items, tx)
    && p' == With(p, a, p[a].(items := Below(p[a].items, k)))
    && SameElsewhere(q, q', a)
    && ItemsOf(q', a) == ItemsOf(q, a) + Above(p[a].items, k)
  }

  /** A queued transaction is gone and nothing else has changed. */
  ghost predicate QueuedGone(p: Accounts, q: Accounts, p': Accounts, q': Accounts, tx: Tx) {
    var a := tx.from;
    && a in q && Holds(q[a].items, tx)
    && p' == p
    && q' == With(q, a, q[a].(items := q[a].items - {tx.nonce}))
  }

  /** What a removal leaves each account with. */
  lemma GoneFrom(p: Accounts, q: Accounts, p': Accounts, q': Accounts, tx: Tx, b: Addr)
    requires PendingGone(p, q, p', q', tx) || QueuedGone(p, q, p', q', tx)
    ensures b != tx.from ==> ItemsOf(p', b) == ItemsOf(p, b) && ItemsOf(q', b) == ItemsOf(q, b)
    ensures b == tx.from && PendingGone(p, q, p', q', tx) ==>
      && ItemsOf(p', b) == Below(ItemsOf(p, b), tx.nonce)
      && ItemsOf(q', b) == ItemsOf(q, b) + Above(ItemsOf(p, b), tx.nonce)
    ensures b == tx.from && QueuedGone(p, q, p', q', tx) ==>
      ItemsOf(p', b) == ItemsOf(p, b) && ItemsOf(q', b) == ItemsOf(q, b) - {tx.nonce}
  {
    if b != tx.from && PendingGone(p, q, p', q', tx) {
      ElsewhereFacts(q, q', tx.from, b);
    }
  }

  lemma RemovedPending(p: Accounts, q: Accounts, txs: set<Tx>, tx: Tx, invalids: seq<Tx>)
    requires Consistent(p, q, txs) && tx in txs && tx.nonce in ItemsOf(p, tx.from)
    requires Lists(invalids, Above(ItemsOf(p, tx.from), tx.nonce))
    ensures var a := tx.from;
      var p' := With(p, a, p[a].(items := Below(p[a].items, tx.nonce)));
      var q' := With(q, a, AddAll(ListOf(q, a, false), invalids));
      PendingGone(p, q, p', q', tx) && Consistent(p', q', txs - {tx})
  {
    var a := tx.from;
    OwnLists(p, q, txs, a);
    var ql := AddAll(ListOf(q, a, false), invalids);
    RequeueFacts(p, q, txs, a, Above(ItemsOf(p, a), tx.nonce), invalids);
    PendingLeaves(p, q, txs, tx, ql);
    PendingIsGone(p, q, tx, ql);
  }

  lemma PendingLeaves(p: Accounts, q: Accounts, txs: set<Tx>, tx: Tx, ql: TxListValue)
    requires Consistent(p, q, txs) && tx in txs && tx.nonce in ItemsOf(p, tx.from)
    requires ListOk(ql, false, tx.from) && ql.items == ItemsOf(q, tx.from) + Above(ItemsOf(p, tx.from), tx.nonce)
    ensures var a := tx.from;
      Consistent(With(p, a, p[a].(items := Below(p[a].items, tx.nonce))), With(q, a, ql), txs - {tx})
  {
    var a := tx.from;
    OwnLists(p, q, txs, a);
    var P := ItemsOf(p, a);
    SubListOk(p[a], Below(P, tx.nonce), true, a);
    Requeue(p, q, txs, a, p[a].(items := Below(P, tx.nonce)), Above(P, tx.nonce), ql, {tx});
  }

  lemma PendingIsGone(p: Accounts, q: Accounts, tx: Tx, ql: TxListValue)
    requires tx.from in p && Holds(p[tx.from].items, tx)
    requires ql.items == ItemsOf(q, tx.from) + Above(ItemsOf(p, tx.from), tx.nonce)
    ensures var a := tx.from;
      PendingGone(p, q, With(p, a, p[a].(items := Below(p[a].items, tx.nonce))), With(q, a, ql), tx)
  {
    WithFacts(q, tx.from, ql);
  }

  lemma RemovedQueued(p: Accounts, q: Accounts, txs: set<Tx>, tx: Tx)
    requires Consistent(p, q, txs) && tx in txs && tx.nonce !in ItemsOf(p, tx.from)
    ensures var a := tx.from;
      && a in q && Holds(q[a].items, tx)
      && Consistent(p, With(q, a, q[a].(items := q[a].items - {tx.nonce})), txs - {tx})
  {
    var a := tx.from;
    OwnLists(p, q, txs, a);
    SubListOk(q[a], q[a].items - {tx.nonce}, false, a);
    Unqueue(p, q, txs, a, q[a].(items := q[a].items - {tx.nonce}), {tx});
  }

  /** What a promotion drops first, promotes, caps and keeps, with the consistency of the outcome. */
  method PlanPromotion(ghost p: Accounts, ghost q: Accounts, ghost txs: set<Tx>, a: Addr, l: TxListValue, means: Means,
                       gasPriceOn: bool, next: nat, cap: Option<nat>)
    returns (first: seq<Tx>, promoted: seq<Tx>, caps: seq<Tx>, kept: TxListValue)
    requires Consistent(p, q, txs) && a in q && l == q[a]
    ensures promoted == Flatten(Promotable(l, means, gasPriceOn, next))
    ensures kept == Queued(l, means, gasPriceOn, next, cap)
    ensures AllIn(promoted, a) && DistinctIn(promoted)
    ensures forall i :: 0 <= i < |promoted| ==> promoted[i].nonce !in ItemsOf(p, a)
    ensures AddAll(ListOf(p, a, true), promoted).items == ItemsOf(p, a) + Promotable(l, means, gasPriceOn, next)
    ensures Consistent(With(p, a, AddAll(ListOf(p, a, true), promoted)), With(q, a, kept),
                       txs - (AsSet(first) + AsSet(caps)))
  {
    ListsAreOk(p, q, txs, a);
    first := Flatten(Below(l.items, means.nonce)) + Flatten(Priceless(l, means, gasPriceOn));
    var run := Promotable(l, means, gasPriceOn, next);
    promoted := Flatten(run);
    kept := Queued(l, means, gasPriceOn, next, cap);
    caps := Flatten(Swept(l, means, gasPriceOn).items - run.Keys - kept.items.Keys);
    QueueListings(p, q, txs, a, means, gasPriceOn, next, cap, first, promoted, caps);
  }

  predicate OutbidBy(t: Tx, tx: Tx, bump: nat) {
    t.from == tx.from && t.nonce == tx.nonce && t.price < tx.price && Threshold(t, bump) <= tx.price
  }

  ghost function AsSingleton(o: Option<Tx>): set<Tx> {
    if o.Some? then {o.value} else {}
  }

  /** Only remote transactions are gone, and none of them was worth more than one that is left. */
  ghost predicate Evicted(txs: set<Tx>, remotes: set<Tx>, txs': set<Tx>, remotes': set<Tx>, dropped: set<Tx>) {
    txs' == txs - dropped && remotes' == remotes - dropped && CheapestFirst(remotes, dropped)
  }

  ghost predicate CheapestFirst(remotes: set<Tx>, dropped: set<Tx>) {
    dropped <= remotes && forall d :: CheapEnough(remotes, dropped, d)
  }

  ghost predicate CheapEnough(remotes: set<Tx>, dropped: set<Tx>, d: Tx) {
    d in dropped ==> forall t :: t in remotes && t !in dropped ==> PriceLe(d, t)
  }

  /** Without one of `dropped`, the others free fewer than `slots` slots. */
  ghost predicate Minimal(dropped: set<Tx>, slots: int) {
    exists d :: d in dropped && SlotsOf(dropped - {d}) < slots
  }

  lemma DropIsMinimal(drop: seq<Tx>, slots: nat)
    requires drop != [] ==> SlotSum(drop[..|drop| - 1]) < slots
    ensures drop != [] ==> Minimal(AsSet(drop), slots)
    ensures drop == [] ==> SlotSum(drop) == 0
  {
    if drop != [] {
      var rest, last := drop[..|drop| - 1], drop[|drop| - 1];
      assert drop == rest + [last];
      AsSetJoins(rest, [last]);
      assert AsSet(drop) - {last} == AsSet(rest) - {last};
      SlotsMinus(AsSet(rest), AsSet(rest) * {last});
      assert AsSet(rest) - AsSet(rest) * {last} == AsSet(rest) - {last};
      SetSlots(rest);
    }
  }

  /** What dropping a prefix of the live heap entries comes to. */
  lemma DropFacts(drop: seq<Tx>, heap: seq<Tx>, live: set<Tx>, txs: set<Tx>, slots: nat, force: bool)
    requires Prefix(drop, heap, live, slots, force) && live <= txs && forall t :: t in live ==> t in heap
    ensures DroppedBy(AsSet(drop), heap, live, slots, force) && CheapestFirst(live, AsSet(drop))
    ensures drop != [] ==> AsSet(drop) != {} && Minimal(AsSet(drop), slots)
    ensures drop == [] ==> slots == 0 || force
    ensures SlotsOf(txs - AsSet(drop)) == SlotsOf(txs) - SlotsOf(AsSet(drop))
  {
    DropIsMinimal(drop, slots);
    SlotsMinus(txs, AsSet(drop));
    assert drop != [] ==> drop[0] in AsSet(drop);
    forall d
      ensures CheapEnough(live, AsSet(drop), d)
    {
      if d in drop {
        forall t | t in live && t !in AsSet(drop)
          ensures PriceLe(d, t)
        {
          assert multiset(drop)[t] == 0 && multiset(heap)[t] > 0;
        }
      }
    }
  }

  lemma NoneEvicted(txs: set<Tx>, remotes: set<Tx>)
    ensures Evicted(txs, remotes, txs, remotes, {})
  {
  }

  /** The one transaction that made way for `tx`, if any, was outbid by it. */
  ghost predicate MadeWay(outbid: Option<Tx>, tx: Tx, bump: nat, r: Outcome) {
    r.Accepted? && (r.replaced <==> outbid.Some?) && (outbid.Some? ==> OutbidBy(outbid.value, tx, bump))
  }

  /** Whether `tx` may replace the transaction with its nonce, if there is one. */
  ghost function Verdict(p: Accounts, q: Accounts, tx: Tx, bump: nat): Outcome {
    var l := if tx.nonce in ItemsOf(p, tx.from) then p[tx.from] else ListOf(q, tx.from, false);
    if Accepts(l, tx, bump) then Accepted(tx.nonce in l.items) else Refused(ReplaceUnderpriced)
  }

  ghost predicate NoneFrom(txs: set<Tx>, a: Addr) {
    forall t :: t in txs ==> t.from != a
  }

  /** Nothing stands in the way of the first transaction of a sender. */
  lemma FirstOfSender(p: Accounts, q: Accounts, txs: set<Tx>, tx: Tx, bump: nat)
    requires Consistent(p, q, txs) && NoneFrom(txs, tx.from)
    ensures ItemsOf(p, tx.from) == map[] && ItemsOf(q, tx.from) == map[]
    ensures Verdict(p, q, tx, bump) == Accepted(false)
  {
    OwnLists(p, q, txs, tx.from);
    assert ItemsOf(p, tx.from).Keys == {} && ItemsOf(q, tx.from).Keys == {};
  }

  /** The error of a valid newcomer, unless it is an older transaction that is in its way. */
  ghost function NoRoom(r: Outcome): Option<Error> {
    if r.Refused? && r.error != ReplaceUnderpriced then Some(r.error) else None
  }

  /** The remote transactions once `tx` has come in for `outbid`, and its sender has become local if it has. */
  ghost function RemotesWith(remotes: set<Tx>, tx: Tx, isLocal: bool, outbid: Option<Tx>, was: set<Addr>,
                             locals: set<Addr>)
    : set<Tx>
  {
    var rs := remotes - AsSingleton(outbid) + if isLocal then {} else {tx};
    if locals == was then rs else set t | t in rs && t.from !in locals
  }

  /** The lookup with `tx` in it, in place of the transaction it outbid, or as it was if `tx` is refused. */
  ghost predicate Joined(txs0: set<Tx>, remotes0: set<Tx>, txs: set<Tx>, remotes: set<Tx>, tx: Tx, isLocal: bool,
                         outbid: Option<Tx>, was: set<Addr>, locals: set<Addr>, bump: nat, r: Outcome) {
    if r.Refused? then txs == txs0 && remotes == remotes0 else
      && MadeWay(outbid, tx, bump, r) && txs == txs0 - AsSingleton(outbid) + {tx}
      && remotes == RemotesWith(remotes0, tx, isLocal, outbid, was, locals)
  }

  /** `tx` has replaced the pending transaction with its nonce or, if there was none, entered the queue. */
  ghost predicate PlacedAs(p: Accounts, q: Accounts, p': Accounts, q': Accounts, tx: Tx) {
    var a := tx.from;
    if tx.nonce in ItemsOf(p, a) then p' == p[a := Added(p[a], tx)] && q' == q
    else p' == p && q' == q[a := Added(ListOf(q, a, false), tx)]
  }

  lemma PlacedAligned(stage: Stage, p: Accounts, q: Accounts, p': Accounts, q': Accounts, tx: Tx, b: Addr,
                      virtual: nat, means: Means, before: nat)
    requires PlacedAs(p, q, p', q', tx)
    requires AlignedAs(stage, ItemsOf(p, b), ItemsOf(q, b), virtual, means, before)
    requires b == tx.from ==> Payable(tx, means) && means.nonce <= tx.nonce
    ensures AlignedAs(stage, ItemsOf(p', b), ItemsOf(q', b), virtual, means, before)
  {
    if b == tx.from {
      if tx.nonce in ItemsOf(p, b) {
        ReplaceAligned(stage, ItemsOf(p, b), ItemsOf(q, b), virtual, means, before, tx);
      } else {
        EnterAligned(stage, ItemsOf(p, b), ItemsOf(q, b), virtual, means, before, tx);
      }
    }
  }

  function MeansIn(s: State, maxGas: nat, a: Addr): Means {
    Means(s.Nonce(a), s.Balance(a), maxGas)
  }

  /** What decides whether a transaction is valid. */
  datatype Rules = Rules(state: State, maxGas: nat, floor: nat, sizeLimit: nat, locals: set<Addr>, gasPriceOn: bool)

  /** validateTx. A privacy marker is as valid as the private transaction it stands for. */
  function Validate(tx: Tx, local: bool, rules: Rules, checks: Checks): (r: Option<Error>)
    ensures r.None? ==>
      Payable(tx, MeansIn(rules.state, rules.maxGas, tx.from)) && rules.state.Nonce(tx.from) <= tx.nonce
    ensures r != Some(AlreadyKnown)
    decreases checks
  {
    var marked := if checks.inner.Some?
      then Validate(checks.inner.value.tx, local, rules, checks.inner.value.checks) else None;
    if !checks.typed then Some(TypeNotSupported)
    else if rules.sizeLimit * 1024 < tx.size then Some(OversizedData)
    else if rules.maxGas < tx.gas then Some(GasLimit)
    else if !checks.signed then Some(InvalidSender)
    else if marked.Some? then marked
    else if !rules.gasPriceOn && tx.price != 0 then Some(InvalidGasPrice)
    else if !checks.permitted then Some(NotPermitted)
    else if rules.gasPriceOn && !local && tx.from !in rules.locals && tx.price < rules.floor
    then Some(Error.Underpriced)
    else if rules.state.Nonce(tx.from) > tx.nonce then Some(NonceTooLow)
    else if rules.state.Balance(tx.from) < tx.Cost() then Some(InsufficientFunds)
    else if tx.gas < checks.intrinsic then Some(IntrinsicGas)
    else None
  }

  /** Being local waives the price floor and nothing else; with the gas price disabled there is no floor. */
  lemma {:induction false} LocalWaivesFloor(tx: Tx, rules: Rules, checks: Checks)
    ensures var mine, theirs := Validate(tx, true, rules, checks), Validate(tx, false, rules, checks);
      && (theirs == mine || (rules.gasPriceOn && theirs == Some(Error.Underpriced)))
      && (theirs.None? ==>
            if rules.gasPriceOn then tx.from in rules.locals || rules.floor <= tx.price else tx.price == 0)
    decreases checks
  {
    if checks.inner.Some? {
      LocalWaivesFloor(checks.inner.value.tx, rules, checks.inner.value.checks);
    }
  }

  /** Account `a` has been demoted: the affordable front stays pending, the rest is back in the queue. */
  ghost predicate DemotedAs(p0: Accounts, q0: Accounts, p: Accounts, q: Accounts, means: Means, a: Addr) {
    if a in p0 then
      ItemsOf(p, a) == Demoted(p0[a], means).items && ItemsOf(q, a) == ItemsOf(q0, a) + SentBack(p0[a], means)
    else
      ItemsOf(p, a) == map[] && ItemsOf(q, a) == ItemsOf(q0, a)
  }

  ghost predicate SameAs(p0: Accounts, q0: Accounts, p: Accounts, q: Accounts, a: Addr) {
    (a in p <==> a in p0) && (a in p ==> p[a] == p0[a]) && ItemsOf(q, a) == ItemsOf(q0, a)
  }

  /** Where the demotion of all accounts stands for account `a`. */
  ghost predicate DemotingAs(p0: Accounts, q0: Accounts, p: Accounts, q: Accounts, s: State, maxGas: nat,
                             todo: set<Addr>, a: Addr) {
    if a in todo then SameAs(p0, q0, p, q, a) else DemotedAs(p0, q0, p, q, MeansIn(s, maxGas, a), a)
  }

  lemma DemotionStep(p0: Accounts, q0: Accounts, pm: Accounts, qm: Accounts, p: Accounts, q: Accounts, s: State,
                     maxGas: nat, todo: set<Addr>, a: Addr, b: Addr)
    requires DemotingAs(p0, q0, pm, qm, s, maxGas, todo, b) && a in todo
    requires if b == a then DemotedAs(pm, qm, p, q, MeansIn(s, maxGas, a), a) else SameAs(pm, qm, p, q, b)
    ensures DemotingAs(p0, q0, p, q, s, maxGas, todo - {a}, b)
  {
  }

  /** Account `a` has been promoted: the run at its virtual nonce has joined the pending list. */
  ghost predicate PromotedAs(p0: Accounts, q0: Accounts, v0: nat, p: Accounts, q: Accounts, v: nat, means: Means,
                             gasPriceOn: bool, cap: Option<nat>, a: Addr) {
    if a in q0 then
      && ItemsOf(p, a) == ItemsOf(p0, a) + Promotable(q0[a], means, gasPriceOn, v0)
      && ItemsOf(q, a) == Queued(q0[a], means, gasPriceOn, v0, cap).items
      && v == Bumped(Promotable(q0[a], means, gasPriceOn, v0), v0)
    else
      ItemsOf(p, a) == ItemsOf(p0, a) && ItemsOf(q, a) == map[] && v == v0
  }

  ghost predicate KeptAs(p0: Accounts, q0: Accounts, v0: nat, p: Accounts, q: Accounts, v: nat, a: Addr) {
    ItemsOf(p, a) == ItemsOf(p0, a) && (a in q <==> a in q0) && (a in q ==> q[a] == q0[a]) && v == v0
  }

  /** Where the promotion of the accounts stands for account `a`. */
  ghost predicate PromotingAs(p0: Accounts, q0: Accounts, v0: nat, p: Accounts, q: Accounts, v: nat, means: Means,
                              gasPriceOn: bool, cap: Option<nat>, done: set<Addr>, a: Addr) {
    if a in done then PromotedAs(p0, q0, v0, p, q, v, means, gasPriceOn, cap, a) else KeptAs(p0, q0, v0, p, q, v, a)
  }

  lemma PromotionStep(p0: Accounts, q0: Accounts, v0: nat, pm: Accounts, qm: Accounts, vm: nat, p: Accounts,
                      q: Accounts, v: nat, means: Means, gasPriceOn: bool, cap: Option<nat>, done: set<Addr>, a: Addr,
                      b: Addr)
    requires PromotingAs(p0, q0, v0, pm, qm, vm, means, gasPriceOn, cap, done, b) && a !in done
    requires if b == a then PromotedAs(pm, qm, vm, p, q, v, means, gasPriceOn, cap, a)
             else KeptAs(pm, qm, vm, p, q, v, b)
    ensures PromotingAs(p0, q0, v0, p, q, v, means, gasPriceOn, cap, done + {a}, b)
  {
  }

  /** The views and the virtual nonces at one moment. */
  datatype View = View(pending: Accounts, queue: Accounts, txs: set<Tx>, remotes: set<Tx>, virtual: imap<Addr, nat>)

  /** An account whose pending nonces have only left: the virtual nonce is lowered to the lowest of those, unless it is
      below them. */
  ghost predicate LeftAs(p0: Items, v0: nat, p: Items, v: nat) {
    && p.Keys <= p0.Keys && v <= v0
    && (forall k :: k in p0 && k !in p ==> v <= k)
    && (v < v0 ==> v in p0 && v !in p)
  }

  ghost predicate Backed(v: View, w: View) {
    forall a :: BackedAt(v, w, a)
  }

  ghost predicate BackedAt(v: View, w: View, a: Addr) {
    && a in v.virtual && a in w.virtual
    && LeftAs(ItemsOf(v.pending, a), v.virtual[a], ItemsOf(w.pending, a), w.virtual[a])
  }

  /** Every account in `v` has shifted from the state `was` to the state `now`. */
  ghost predicate ShiftedFrom(was: State, now: State, maxGas: nat, v: View) {
    forall a :: ShiftedFromAt(was, now, maxGas, v, a)
  }

  ghost predicate ShiftedFromAt(was: State, now: State, maxGas: nat, v: View, a: Addr) {
    && a in v.virtual
    && Shifted(ItemsOf(v.pending, a), ItemsOf(v.queue, a), v.virtual[a], MeansIn(now, maxGas, a), was.Nonce(a))
  }

  lemma BackedAgain(u: View, v: View, w: View)
    requires Backed(u, v) && Backed(v, w)
    ensures Backed(u, w)
  {
    forall a
      ensures BackedAt(u, w, a)
    {
      assert BackedAt(u, v, a) && BackedAt(v, w, a);
    }
  }

  /** The level of the pending lists and what was taken from the queues. */
  datatype Cuts = Cuts(level: nat, gone: set<Addr>, cut: Option<Addr>, keep: nat)

  /** What is left of the queue `q` of account `a`. */
  ghost function KeptOf(q: Items, c: Cuts, a: Addr): Items {
    if a in c.gone then map[] else if c.cut == Some(a) then Lowest(q, c.keep) else q
  }

  /** What truncation leaves of an account that may keep `level` pending transactions. */
  ghost function CutDown(r: Account, level: nat, c: Cuts, a: Addr): Account {
    var low := Lowest(r.pending, level);
    Account(low, KeptOf(r.queue, c, a), Updated(low, r.virtual))
  }

  lemma StillRemote(txs: set<Tx>, remotes: set<Tx>, gone: set<Tx>)
    requires remotes <= txs
    ensures remotes * (txs - gone) == remotes - gone
  {
  }

  /** What promotion and demotion make of account `a`, `virtual` being its virtual nonce before the final update. */
  ghost predicate ResetAs(v: View, p: Accounts, q: Accounts, virtual: nat, means: Means, gasPriceOn: bool,
                          cap: Option<nat>, a: Addr) {
    && a in v.virtual
    && var r := AfterReset(ListOf(v.pending, a, true), ListOf(v.queue, a, false), means, gasPriceOn, cap,
                           v.virtual[a]);
      ItemsOf(p, a) == r.pending && ItemsOf(q, a) == r.queue && Updated(r.pending, virtual) == r.virtual
  }

  /** Promotion of an account, whether it has a queue or not. */
  lemma PromotedLists(p0: Accounts, q0: Accounts, txs: set<Tx>, v0: nat, p: Accounts, q: Accounts, v: nat, means: Means,
                      gasPriceOn: bool, cap: Option<nat>, a: Addr)
    requires Consistent(p0, q0, txs)
    requires if a in q0 then PromotedAs(p0, q0, v0, p, q, v, means, gasPriceOn, cap, a)
             else KeptAs(p0, q0, v0, p, q, v, a)
    ensures var ql := ListOf(q0, a, false);
      var run := Promotable(ql, means, gasPriceOn, v0);
      && ItemsOf(p, a) == AddAll(ListOf(p0, a, true), Flatten(run)).items
      && ItemsOf(q, a) == Queued(ql, means, gasPriceOn, v0, cap).items
      && v == Bumped(run, v0)
      && ListOk(AddAll(ListOf(p0, a, true), Flatten(run)), true, a)
  {
    OwnLists(p0, q0, txs, a);
    JoinedList(ListOf(p0, a, true), ListOf(q0, a, false), means, gasPriceOn, cap, a, v0);
    if a !in q0 {
      QueuedFacts(ListOf(q0, a, false), means, gasPriceOn, v0, cap, a);
      assert Promotable(ListOf(q0, a, false), means, gasPriceOn, v0) == map[];
    }
  }

  lemma ResetIs(v: View, txs: set<Tx>, pm: Accounts, qm: Accounts, txsm: set<Tx>, vm: nat, p: Accounts, q: Accounts,
                means: Means, gasPriceOn: bool, cap: Option<nat>, a: Addr)
    requires Consistent(v.pending, v.queue, txs) && Consistent(pm, qm, txsm) && a in v.virtual
    requires if a in v.queue then PromotedAs(v.pending, v.queue, v.virtual[a], pm, qm, vm, means, gasPriceOn, cap, a)
             else KeptAs(v.pending, v.queue, v.virtual[a], pm, qm, vm, a)
    requires DemotedAs(pm, qm, p, q, means, a)
    ensures ResetAs(v, p, q, vm, means, gasPriceOn, cap, a)
  {
    var run := Promotable(ListOf(v.queue, a, false), means, gasPriceOn, v.virtual[a]);
    var l := AddAll(ListOf(v.pending, a, true), Flatten(run));
    PromotedLists(v.pending, v.queue, txs, v.virtual[a], pm, qm, vm, means, gasPriceOn, cap, a);
    ListsAreOk(pm, qm, txsm, a);
    DemotedLists(pm, qm, p, q, l, means, a);
  }

  /** Demotion looks at the transactions of a list alone. */
  lemma DemotedLists(p0: Accounts, q0: Accounts, p: Accounts, q: Accounts, l: TxListValue, means: Means, a: Addr)
    requires ListOk(l, true, a) && l.items == ItemsOf(p0, a) && (a in p0 ==> ListOk(p0[a], true, a))
    requires DemotedAs(p0, q0, p, q, means, a)
    ensures ItemsOf(p, a) == Demoted(l, means).items && ItemsOf(q, a) == ItemsOf(q0, a) + SentBack(l, means)
  {
    if a in p0 {
      DemotedAlike(l, p0[a], means, a);
    } else {
      DemotedFacts(l, means, a);
      assert SentBack(l, means) == map[] && Demoted(l, means).items == map[];
    }
  }

  lemma DemotedAlike(l: TxListValue, m: TxListValue, means: Means, a: Addr)
    requires ListOk(l, true, a) && ListOk(m, true, a) && l.items == m.items
    ensures Demoted(l, means).items == Demoted(m, means).items && SentBack(l, means) == SentBack(m, means)
  {
    DemotedIs(l, means, a);
    DemotedIs(m, means, a);
    FrontIsUnique(Demoted(l, means).items, Demoted(m, means).items, AtLeast(l.items, means.nonce), means);
  }

  lemma WithValues(m: Accounts, a: Addr, l: TxListValue, b: Addr)
    requires b != a
    ensures b in With(m, a, l) <==> b in m
    ensures b in m ==> With(m, a, l)[b] == m[b]
    ensures ItemsOf(With(m, a, l), b) == ItemsOf(m, b)
  {
  }

  /** An account's next nonce stays free through both truncations. */
  lemma TruncatedFree(p: Accounts, q: Accounts, txs: set<Tx>, p': Accounts, q': Accounts, who: set<Addr>, level: nat,
                      gone: set<Addr>, cut: Option<Addr>, keep: nat, a: Addr, virtual: nat, means: Means)
    requires Consistent(p, q, txs) && Trimmed(ItemsOf(p, a), ItemsOf(q, a), virtual, means)
    requires p' == p || Levelled(p, p', who, level)
    requires q' == q || Shed(q, q', gone, cut, keep)
    ensures NextFree(ItemsOf(p, a), ItemsOf(q, a), means.nonce) ==>
      NextFree(ItemsOf(p', a), ItemsOf(q', a), means.nonce)
  {
    if NextFree(ItemsOf(p, a), ItemsOf(q, a), means.nonce) {
      var shorter := PendingShortened(p, p', who, level, a);
      QueueShrunk(q, q', gone, cut, keep, a);
      assert ItemsOf(p, a).Keys !! ItemsOf(q, a).Keys by {
        OwnLists(p, q, txs, a);
      }
      ShorterFree(ItemsOf(p, a), ItemsOf(q, a), virtual, means, ItemsOf(q', a), shorter);
    }
  }
}
