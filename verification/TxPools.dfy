/** The transaction pool. */
module TxPools {
  import opened Options
  import opened Transactions
  import opened TxLists
  import opened PoolViews
  import opened PoolSteps
  import opened PoolNonces
  import opened PoolGaps
  import opened PoolTruncation
  import opened PoolQueues
  import opened PoolChanges
  import opened PoolTurns
  import opened PricedLists
  import opened Noncers
  import Heaps

  class TxPool {
    const config: Config
    const all: TxLookup
    const priced: TxPricedList
    var pendingNonces: TxNoncer
    var currentState: State
    var currentMaxGas: nat
    var gasPrice: nat
    var locals: set<Addr>
    var pending: Accounts
    var queue: Accounts
    var beats: map<Addr, nat>
    var clock: nat

    ghost predicate Wired()
      reads all, priced
    {
      all.Valid() && priced.Valid() && priced.all == all
    }

    ghost predicate Valid()
      reads this`pending, this`queue, all, priced
    {
      Wired() && Consistent(pending, queue, all.Txs())
    }

    ghost function Now(): View
      reads this`pending, this`queue, this`pendingNonces, pendingNonces, all
    {
      View(pending, queue, all.Txs(), all.remotes, imap a: Addr | true :: pendingNonces.At(a))
    }

    /** The present lists, with the virtual nonces starting over from a state. */
    ghost function Restart(state: State): View
      reads this`pending, this`queue, all
    {
      View(pending, queue, all.Txs(), all.remotes, imap a: Addr | true :: state.Nonce(a))
    }

    constructor (config: Config, locals: set<Addr>, state: State, maxGas: nat, gasPrice: nat)
      ensures Valid() && priced.Covers({})
      ensures this.config == config && pending == map[] && queue == map[] && this.locals == locals
      ensures all.Txs() == {} && all.remotes == {} && currentMaxGas == maxGas && this.gasPrice == gasPrice
      ensures priced.remotes == [] && priced.stales == 0
      ensures currentState == state && forall a :: pendingNonces.At(a) == state.Nonce(a)
      ensures fresh(all) && fresh(priced) && fresh(pendingNonces)
    {
      this.config, this.locals, this.gasPrice := config, locals, gasPrice;
      pending, queue, beats, clock := map[], map[], map[], 0;
      currentState, currentMaxGas := state, maxGas;
      pendingNonces := new TxNoncer(state);
      var lookup := new TxLookup();
      all := lookup;
      priced := new TxPricedList(lookup);
    }

    /** Nothing has entered the pool, and what is still there is remote if and only if it was. */
    twostate predicate Thinned()
      reads all
    {
      forall t :: t in all.Txs() ==> t in old(all.Txs()) && (t in all.remotes <==> t in old(all.remotes))
    }

    /** The same, as seen from earlier views. */
    ghost predicate ThinnedFrom(v: View)
      reads all
    {
      forall t :: t in all.Txs() ==> t in v.txs && (t in all.remotes <==> t in v.remotes)
    }

    /** Time passes between calls. */
    method Tick(seconds: nat)
      modifies this`clock
      ensures clock == old(clock) + seconds
    {
      clock := clock + seconds;
    }

    /** Removes each transaction of `txs` from the lookup. */
    method DropAll(txs: seq<Tx>)
      requires all.Valid()
      modifies all
      ensures all.Valid() && all.Txs() == old(all.Txs()) - AsSet(txs)
      ensures all.remotes == old(all.remotes) - AsSet(txs)
    {
      for i := 0 to |txs|
        invariant all.Valid() && all.Txs() == old(all.Txs()) - AsSet(txs[..i])
        invariant all.remotes == old(all.remotes) - AsSet(txs[..i])
      {
        all.Remove(txs[i]);
        assert txs[..i + 1] == txs[..i] + [txs[i]];
        assert AsSet(txs[..i + 1]) == AsSet(txs[..i]) + {txs[i]};
      }
      assert txs[..|txs|] == txs;
    }

    /** The price heap has one more entry, for `tx`, unless that is local. */
    twostate predicate HeapGrows(new tx: Tx, new local: bool)
      reads priced
    {
      && multiset(priced.remotes) == multiset(old(priced.remotes)) + (if local then multiset{} else multiset{tx})
      && priced.stales == old(priced.stales)
    }

    /** Inserts into the queue; `addAll` also registers the transaction in the lookup and the price heap. */
    method EnqueueTx(tx: Tx, local: bool, addAll: bool, ghost exempt: set<Tx>) returns (r: Outcome)
      requires Wired() && priced.Covers(exempt)
      requires addAll ==> tx !in all.Txs()
      modifies this`queue, this`beats, all, priced
      ensures Wired() && priced.Covers(exempt)
      ensures var l := ListOf(old(queue), tx.from, false);
        if Accepts(l, tx, config.priceBump) then
          && r == Accepted(tx.nonce in l.items)
          && queue == old(queue)[tx.from := Added(l, tx)]
          && all.Txs() == old(all.Txs()) - Outbid(l.items, tx) + (if addAll then {tx} else {})
          && all.remotes == old(all.remotes) - Outbid(l.items, tx) + (if addAll && !local then {tx} else {})
          && (!addAll && tx.nonce !in l.items ==> priced.remotes == old(priced.remotes))
          && (addAll && tx.nonce !in l.items ==> HeapGrows(tx, local))
          && beats == (if tx.from in old(beats) then old(beats) else old(beats)[tx.from := clock])
        else
          r == Refused(ReplaceUnderpriced) && queue == old(queue) && unchanged(all) && unchanged(priced)
    {
      var from := tx.from;
      var l := ListOf(queue, from, false);
      if !Accepts(l, tx, config.priceBump) {
        return Refused(ReplaceUnderpriced);
      }
      queue := queue[from := Added(l, tx)];
      if tx.nonce in l.items {
        all.Remove(l.items[tx.nonce]);
        priced.Removed(1);
      }
      if addAll {
        all.Add(tx, local);
        priced.Put(tx, local);
      }
      if from !in beats {
        beats := beats[from := clock];
      }
      r := Accepted(tx.nonce in l.items);
    }

    /** Re-queues transactions of one account whose nonces are free in its queue: every insertion
        succeeds, replaces nothing and leaves the lookup and the price heap alone. */
    method EnqueueAll(a: Addr, txs: seq<Tx>, ghost exempt: set<Tx>)
      requires Wired() && priced.Covers(exempt) && NonEmptyAt(queue, a)
      requires AllIn(txs, a) && DistinctIn(txs)
      requires forall i :: 0 <= i < |txs| ==> txs[i].nonce !in ItemsOf(queue, a)
      modifies this`queue, this`beats, all, priced
      ensures Wired() && priced.Covers(exempt)
      ensures all.Txs() == old(all.Txs()) && all.remotes == old(all.remotes)
      ensures queue == With(old(queue), a, AddAll(ListOf(old(queue), a, false), txs))
    {
      ghost var q, l := queue, ListOf(queue, a, false);
      WithSame(queue, a, false);
      assert txs[..0] == [];
      for i := 0 to |txs|
        invariant Wired() && priced.Covers(exempt)
        invariant all.Txs() == old(all.Txs()) && all.remotes == old(all.remotes)
        invariant queue == With(q, a, AddAll(l, txs[..i])) && ListOf(queue, a, false) == AddAll(l, txs[..i])
      {
        FreshStep(l, txs, i);
        WithStep(q, a, AddAll(l, txs[..i]), txs[i]);
        var r := EnqueueTx(txs[i], false, false, exempt);
      }
      assert txs[..|txs|] == txs;
    }

    /** Replaces an account's pending list and re-queues what was taken out of it. */
    method PutBack(a: Addr, pl: TxListValue, back: seq<Tx>, ghost exempt: set<Tx>)
      requires Wired() && priced.Covers(exempt) && NonEmptyAt(queue, a)
      requires AllIn(back, a) && DistinctIn(back)
      requires forall i :: 0 <= i < |back| ==> back[i].nonce !in ItemsOf(queue, a)
      modifies this`pending, this`queue, this`beats, all, priced
      ensures Wired() && priced.Covers(exempt)
      ensures all.Txs() == old(all.Txs()) && all.remotes == old(all.remotes)
      ensures pending == With(old(pending), a, pl)
      ensures queue == With(old(queue), a, AddAll(ListOf(old(queue), a, false), back))
    {
      pending := With(pending, a, pl);
      EnqueueAll(a, back, exempt);
    }

    /** The pending case of RemoveListed, once the lookup has forgotten `tx`. */
    method RemovePending(tx: Tx, ghost exempt: set<Tx>)
      requires Wired() && priced.Covers(exempt) && tx !in all.Txs()
      requires Consistent(pending, queue, all.Txs() + {tx}) && tx.nonce in ItemsOf(pending, tx.from)
      modifies this`pending, this`queue, this`beats, all, priced, pendingNonces
      ensures Valid() && priced.Covers(exempt)
      ensures all.Txs() == old(all.Txs()) && all.remotes == old(all.remotes)
      ensures PendingGone(old(pending), old(queue), pending, queue, tx)
      ensures pendingNonces.At(tx.from) == Min(tx.nonce, old(pendingNonces.At(tx.from)))
      ensures forall b :: b != tx.from ==> pendingNonces.At(b) == old(pendingNonces.At(b))
    {
      ListsAreOk(pending, queue, all.Txs() + {tx}, tx.from);
      var a := tx.from;
      ghost var p, q, txs := pending, queue, all.Txs() + {tx};
      var l := pending[a];
      var invalids := Flatten(Above(l.items, tx.nonce));
      assert Lists(invalids, Above(l.items, tx.nonce)) by {
        FlattenLists(Above(l.items, tx.nonce));
      }
      RemovedPending(p, q, txs, tx, invalids);
      RequeueReady(p, q, txs, a, Above(l.items, tx.nonce), invalids);
      PutBack(a, l.(items := Below(l.items, tx.nonce)), invalids, exempt);
      assert all.Txs() == txs - {tx};
      pendingNonces.SetIfLower(a, tx.nonce);
    }

    /** Removes one transaction. A pending one takes its account's later ones back to the queue. */
    method RemoveListed(tx: Tx, outOfBound: bool, ghost exempt: set<Tx>)
      requires Valid() && priced.Covers(exempt)
      modifies this`pending, this`queue, this`beats, all, priced, pendingNonces
      ensures Valid() && priced.Covers(exempt)
      ensures all.Txs() == old(all.Txs()) - {tx} && all.remotes == old(all.remotes) - {tx}
      ensures tx !in old(all.Txs()) ==> pending == old(pending) && queue == old(queue)
      ensures tx in old(all.Txs()) ==>
        if tx.nonce in ItemsOf(old(pending), tx.from) then PendingGone(old(pending), old(queue), pending, queue, tx)
        else QueuedGone(old(pending), old(queue), pending, queue, tx)
      ensures tx in old(all.Txs()) && tx.nonce in ItemsOf(old(pending), tx.from) ==>
        pendingNonces.At(tx.from) == Min(tx.nonce, old(pendingNonces.At(tx.from)))
      ensures forall b ::
        (tx in old(all.Txs()) && b == tx.from && tx.nonce in ItemsOf(old(pending), b))
        || pendingNonces.At(b) == old(pendingNonces.At(b))
      ensures tx.nonce !in ItemsOf(old(pending), tx.from) && old(priced.stales) + 1 <= |old(priced.remotes)| / 4 ==>
        priced.remotes == old(priced.remotes)
    {
      var known := all.Get(tx);
      if !known {
        assert all.Txs() - {tx} == all.Txs();
        assert all.remotes - {tx} == all.remotes;
        return;
      }
      var a := tx.from;
      assert (all.Txs() - {tx}) + {tx} == all.Txs();
      all.Remove(tx);
      if outOfBound {
        priced.Removed(1);
      }
      if a in pending && tx.nonce in pending[a].items {
        RemovePending(tx, exempt);
        return;
      }
      RemoveQueued(tx);
    }

    /** The queue case of RemoveListed, once the lookup has forgotten `tx`. */
    method RemoveQueued(tx: Tx)
      requires Wired() && tx !in all.Txs()
      requires Consistent(pending, queue, all.Txs() + {tx}) && tx.nonce !in ItemsOf(pending, tx.from)
      modifies this`queue, this`beats
      ensures Valid()
      ensures QueuedGone(pending, old(queue), pending, queue, tx)
    {
      var a := tx.from;
      RemovedQueued(pending, queue, all.Txs() + {tx}, tx);
      assert all.Txs() == all.Txs() + {tx} - {tx};
      if a in queue {
        var l := queue[a];
        if tx.nonce in l.items {
          queue := With(queue, a, l.(items := l.items - {tx.nonce}));
        }
        if a !in queue {
          beats := beats - {a};
        }
      }
    }

    ghost function MeansOf(a: Addr): Means
      reads this`currentState, this`currentMaxGas
    {
      Means(currentState.Nonce(a), currentState.Balance(a), currentMaxGas)
    }

    /** Moves one transaction into its account's pending list. */
    method PromoteTx(a: Addr, tx: Tx, ghost exempt: set<Tx>) returns (inserted: bool)
      requires Wired() && priced.Covers(exempt)
      modifies this`pending, this`beats, all, priced, pendingNonces
      ensures Wired() && priced.Covers(exempt)
      ensures var l := ListOf(old(pending), a, true);
        && inserted == Accepts(l, tx, config.priceBump)
        && all.Txs() == old(all.Txs()) - (if inserted then Outbid(l.items, tx) else {tx})
        && all.remotes == old(all.remotes) - (if inserted then Outbid(l.items, tx) else {tx})
        && pending == (if inserted then old(pending)[a := Added(l, tx)] else old(pending))
        && beats == (if inserted then old(beats)[a := clock] else old(beats))
        && forall b :: pendingNonces.At(b) == (if inserted && b == a then tx.nonce + 1 else old(pendingNonces.At(b)))
    {
      var l := ListOf(pending, a, true);
      if !Accepts(l, tx, config.priceBump) {
        all.Remove(tx);
        priced.Removed(1);
        return false;
      }
      pending := pending[a := Added(l, tx)];
      if tx.nonce in l.items {
        all.Remove(l.items[tx.nonce]);
        priced.Removed(1);
      }
      pendingNonces.Set(a, tx.nonce + 1);
      beats := beats[a := clock];
      return true;
    }

    /** Promotes transactions whose nonces are free in the pending list: all are inserted and the
        virtual nonce ends one past the last. */
    method PromoteAll(a: Addr, txs: seq<Tx>, ghost exempt: set<Tx>)
      requires Wired() && priced.Covers(exempt) && NonEmptyAt(pending, a)
      requires AllIn(txs, a) && DistinctIn(txs)
      requires forall i :: 0 <= i < |txs| ==> txs[i].nonce !in ItemsOf(pending, a)
      modifies this`pending, this`beats, all, priced, pendingNonces
      ensures Wired() && priced.Covers(exempt)
      ensures all.Txs() == old(all.Txs()) && all.remotes == old(all.remotes)
      ensures pending == With(old(pending), a, AddAll(ListOf(old(pending), a, true), txs))
      ensures forall b ::
        pendingNonces.At(b) == (if b == a && txs != [] then txs[|txs| - 1].nonce + 1 else old(pendingNonces.At(b)))
    {
      ghost var p, l := pending, ListOf(pending, a, true);
      WithSame(pending, a, true);
      assert txs[..0] == [];
      for i := 0 to |txs|
        invariant Wired() && priced.Covers(exempt)
        invariant all.Txs() == old(all.Txs()) && all.remotes == old(all.remotes)
        invariant pending == With(p, a, AddAll(l, txs[..i])) && ListOf(pending, a, true) == AddAll(l, txs[..i])
        invariant forall b ::
          pendingNonces.At(b) == (if b == a && 0 < i then txs[i - 1].nonce + 1 else old(pendingNonces.At(b)))
      {
        FreshStep(l, txs, i);
        WithStep(p, a, AddAll(l, txs[..i]), txs[i]);
        var inserted := PromoteTx(a, txs[i], exempt);
      }
      assert txs[..|txs|] == txs;
    }

    function CapOf(a: Addr): Option<nat>
      reads this`locals
    {
      if a in locals then None else Some(config.accountQueue)
    }

    /** promoteExecutables for one account: drop what is stale or unpayable, promote the run that starts
        at the virtual nonce, cap the rest. */
    method PromoteAccount(a: Addr, gasPriceOn: bool) returns (promoted: seq<Tx>)
      requires Valid() && priced.Covers({}) && a in queue
      modifies this`pending, this`queue, this`beats, all, priced, pendingNonces
      ensures Valid() && priced.Covers({})
      ensures var next := old(pendingNonces.At(a));
        var run := Promotable(old(queue)[a], MeansOf(a), gasPriceOn, next);
        && promoted == Flatten(run)
        && pending == With(old(pending), a, AddAll(ListOf(old(pending), a, true), promoted))
        && queue == With(old(queue), a, Queued(old(queue)[a], MeansOf(a), gasPriceOn, next, CapOf(a)))
        && ItemsOf(pending, a) == ItemsOf(old(pending), a) + run
      ensures Thinned()
      ensures forall b ::
        pendingNonces.At(b) == (if b == a && promoted != [] then promoted[|promoted| - 1].nonce + 1
                                else old(pendingNonces.At(b)))
    {
      ListsAreOk(pending, queue, all.Txs(), a);
      var means := Means(currentState.Nonce(a), currentState.Balance(a), currentMaxGas);
      var l := queue[a];
      var next := pendingNonces.Get(a);
      var first, caps, kept;
      first, promoted, caps, kept := PlanPromotion(pending, queue, all.Txs(), a, l, means, gasPriceOn, next, CapOf(a));
      StillRemote(all.Txs(), all.remotes, AsSet(first) + AsSet(caps));
      MoveRun(a, first, promoted, caps, kept);
    }

    /** The bookkeeping of a promotion: `first` leave the lookup, `promoted` enter the pending list,
        `caps` leave the lookup and `kept` is what the queue holds on to. */
    method MoveRun(a: Addr, first: seq<Tx>, promoted: seq<Tx>, caps: seq<Tx>, kept: TxListValue)
      requires Wired() && priced.Covers({}) && NonEmptyAt(pending, a)
      requires AllIn(promoted, a) && DistinctIn(promoted)
      requires forall i :: 0 <= i < |promoted| ==> promoted[i].nonce !in ItemsOf(pending, a)
      modifies this`pending, this`queue, this`beats, all, priced, pendingNonces
      ensures Wired() && priced.Covers({})
      ensures all.Txs() == old(all.Txs()) - (AsSet(first) + AsSet(caps))
      ensures all.remotes == old(all.remotes) - (AsSet(first) + AsSet(caps))
      ensures pending == With(old(pending), a, AddAll(ListOf(old(pending), a, true), promoted))
      ensures queue == With(old(queue), a, kept)
      ensures forall b ::
        pendingNonces.At(b) == (if b == a && promoted != [] then promoted[|promoted| - 1].nonce + 1
                                else old(pendingNonces.At(b)))
    {
      DropAll(first);
      PromoteAll(a, promoted, {});
      DropAll(caps);
      priced.Removed(|first| + |caps|);
      StoreQueue(a, kept);
    }

    /** Stores what is left of a queue; an empty one goes, with its heartbeat. */
    method StoreQueue(a: Addr, kept: TxListValue)
      modifies this`queue, this`beats
      ensures queue == With(old(queue), a, kept)
    {
      queue := With(queue, a, kept);
      if a !in queue {
        beats := beats - {a};
      }
    }

    /** demoteUnexecutables for one account. */
    method DemoteAccount(a: Addr)
      requires Valid() && priced.Covers({}) && a in pending
      modifies this`pending, this`queue, this`beats, all, priced
      ensures Valid() && priced.Covers({})
      ensures Thinned()
      ensures pending == With(old(pending), a, Demoted(old(pending)[a], MeansOf(a)))
      ensures SameElsewhere(old(queue), queue, a)
      ensures ItemsOf(queue, a) == ItemsOf(old(queue), a) + SentBack(old(pending)[a], MeansOf(a))
    {
      ListsAreOk(pending, queue, all.Txs(), a);
      ghost var p, q, txs := pending, queue, all.Txs();
      var means := Means(currentState.Nonce(a), currentState.Balance(a), currentMaxGas);
      var l := pending[a];
      var olds := Flatten(Below(l.items, means.nonce));
      DropAll(olds);
      var recent := AtLeast(l.items, means.nonce);
      var unpaid := Overdrawn(recent, means.balance, means.gas);
      var drops := Flatten(unpaid);
      DropAll(drops);
      priced.Removed(|olds| + |drops|);
      var left := Affordable(l, means);
      var invalids := Flatten(recent - left.items.Keys - unpaid.Keys);
      var gapped := if FrontGap(l, means) then Flatten(left.items) else [];
      PendingListings(p, q, txs, a, means, invalids + gapped, AsSet(olds) + AsSet(drops));
      assert all.Txs() == txs - (AsSet(olds) + AsSet(drops));
      PutBack(a, Demoted(l, means), invalids + gapped, {});
      WithFacts(q, a, AddAll(ListOf(q, a, false), invalids + gapped));
    }

    ghost predicate AlignedAt(stage: Stage, before: State, a: Addr)
      reads this`pending, this`queue, this`currentState, this`currentMaxGas, this`pendingNonces, pendingNonces
    {
      AlignedAs(stage, ItemsOf(pending, a), ItemsOf(queue, a), pendingNonces.At(a), MeansOf(a), before.Nonce(a))
    }

    /** The nonces of every account line up as `stage` asks. */
    ghost predicate Aligned(stage: Stage, before: State)
      reads this`pending, this`queue, this`currentState, this`currentMaxGas, this`pendingNonces, pendingNonces
    {
      forall a :: AlignedAt(stage, before, a)
    }

    /** removeTx; the nonces of every account stay lined up. */
    method RemoveTx(tx: Tx, outOfBound: bool, ghost exempt: set<Tx>, ghost stage: Stage, ghost before: State)
      requires Valid() && priced.Covers(exempt) && Aligned(stage, before)
      modifies this`pending, this`queue, this`beats, all, priced, pendingNonces
      ensures Valid() && priced.Covers(exempt) && Aligned(stage, before)
      ensures all.Txs() == old(all.Txs()) - {tx} && all.remotes == old(all.remotes) - {tx}
      ensures tx !in old(all.Txs()) ==> pending == old(pending) && queue == old(queue)
      ensures tx in old(all.Txs()) ==>
        if tx.nonce in ItemsOf(old(pending), tx.from) then PendingGone(old(pending), old(queue), pending, queue, tx)
        else QueuedGone(old(pending), old(queue), pending, queue, tx)
      ensures Backed(old(Now()), Now())
      ensures tx.nonce !in ItemsOf(old(pending), tx.from) && old(priced.stales) + 1 <= |old(priced.remotes)| / 4 ==>
        priced.remotes == old(priced.remotes)
    {
      RemoveListed(tx, outOfBound, exempt);
      RemovalBacks(tx);
      forall b
        ensures AlignedAt(stage, before, b)
      {
        assert old(AlignedAt(stage, before, b));
        if tx in old(all.Txs()) {
          GoneFrom(old(pending), old(queue), pending, queue, tx, b);
          if b == tx.from {
            if tx.nonce in ItemsOf(old(pending), b) {
              RemoveAligned(stage, ItemsOf(old(pending), b), ItemsOf(old(queue), b), old(pendingNonces.At(b)),
                            MeansOf(b), before.Nonce(b), tx.nonce);
            } else {
              ShrinkAligned(stage, ItemsOf(pending, b), ItemsOf(old(queue), b), ItemsOf(queue, b), pendingNonces.At(b),
                            MeansOf(b), before.Nonce(b));
            }
          }
        }
      }
    }

    /** Nothing leaves a pending list when a transaction is replaced or queued. */
    twostate lemma PlacementBacks(new tx: Tx)
      requires pending == old(pending) || PlacedAs(old(pending), old(queue), pending, queue, tx)
      requires pendingNonces == old(pendingNonces) && forall b :: pendingNonces.At(b) == old(pendingNonces.At(b))
      ensures Backed(old(Now()), Now())
    {
      forall b
        ensures BackedAt(old(Now()), Now(), b)
      {
        if b == tx.from && tx.nonce in ItemsOf(old(pending), b) && pending != old(pending) {
          assert ItemsOf(pending, b) == ItemsOf(old(pending), b)[tx.nonce := tx];
        }
      }
    }

    lemma NoneLeft()
      ensures Backed(Now(), Now())
    {
      forall a
        ensures BackedAt(Now(), Now(), a)
      {
      }
    }

    /** The virtual nonce goes along with what leaves the pending list. */
    twostate lemma RemovalBacks(new tx: Tx)
      requires tx !in old(all.Txs()) ==> pending == old(pending) && queue == old(queue)
      requires tx in old(all.Txs()) ==>
        if tx.nonce in ItemsOf(old(pending), tx.from) then PendingGone(old(pending), old(queue), pending, queue, tx)
        else QueuedGone(old(pending), old(queue), pending, queue, tx)
      requires tx in old(all.Txs()) && tx.nonce in ItemsOf(old(pending), tx.from) ==>
        pendingNonces.At(tx.from) == Min(tx.nonce, old(pendingNonces.At(tx.from)))
      requires forall b ::
        (tx in old(all.Txs()) && b == tx.from && tx.nonce in ItemsOf(old(pending), b))
        || pendingNonces.At(b) == old(pendingNonces.At(b))
      ensures Backed(old(Now()), Now())
    {
      forall b
        ensures BackedAt(old(Now()), Now(), b)
      {
        if tx in old(all.Txs()) {
          GoneFrom(old(pending), old(queue), pending, queue, tx, b);
        }
      }
    }

    /** Removes the transactions chosen by the price heap. */
    method KickOut(drop: seq<Tx>, ghost stage: Stage, ghost before: State)
      requires Valid() && priced.Covers(AsSet(drop)) && Aligned(stage, before)
      modifies this`pending, this`queue, this`beats, all, priced, pendingNonces
      ensures Valid() && priced.Covers({}) && Aligned(stage, before)
      ensures all.Txs() == old(all.Txs()) - AsSet(drop) && all.remotes == old(all.remotes) - AsSet(drop)
      ensures drop == [] ==> Now() == old(Now())
      ensures Backed(old(Now()), Now())
    {
      ghost var v := Now();
      NoneLeft();
      for i := 0 to |drop|
        invariant Valid() && priced.Covers(AsSet(drop)) && Aligned(stage, before)
        invariant i == 0 ==> Now() == v
        invariant Backed(v, Now())
        invariant all.Txs() == old(all.Txs()) - AsSet(drop[..i]) && all.remotes == old(all.remotes) - AsSet(drop[..i])
      {
        ghost var u := Now();
        RemoveTx(drop[i], false, AsSet(drop), stage, before);
        BackedAgain(v, u, Now());
        assert drop[..i + 1] == drop[..i] + [drop[i]];
        AsSetJoins(drop[..i], [drop[i]]);
      }
      assert drop[..|drop|] == drop;
    }

    function RulesNow(gasPriceOn: bool): Rules
      reads this`currentMaxGas, this`gasPrice, this`locals, this`currentState
    {
      Rules(currentState, currentMaxGas, gasPrice, config.sizeLimit, locals, gasPriceOn)
    }

    function Limit(): nat {
      config.globalSlots + config.globalQueue
    }

    /** Every remote transaction is at least as expensive as `tx`, and there is one. */
    ghost predicate Cheapest(tx: Tx)
      reads all
    {
      all.remotes != {} && forall t :: t in all.remotes ==> tx.price <= t.price
    }

    /** The slots to be freed before `tx` fits. */
    function Excess(tx: Tx): int
      reads all
    {
      all.slots - Limit() + NumSlots(tx)
    }

    /** Why a newcomer to an overfull pool is turned away. */
    ghost function RoomError(tx: Tx, isLocal: bool, gasPriceOn: bool): Option<Error>
      reads all, priced
    {
      if isLocal then None
      else if gasPriceOn && Cheapest(tx) then Some(Error.Underpriced)
      else if LiveSum(priced.remotes, all.remotes) < Excess(tx) then Some(PoolOverflow)
      else None
    }

    /** Makes room in a full pool by dropping the cheapest remote transactions. */
    method MakeRoom(tx: Tx, isLocal: bool, gasPriceOn: bool, ghost stage: Stage, ghost before: State)
      returns (err: Option<Error>, ghost dropped: set<Tx>)
      requires Valid() && priced.Covers({}) && Aligned(stage, before)
      modifies this`pending, this`queue, this`beats, all, priced, pendingNonces
      ensures Valid() && priced.Covers({}) && Aligned(stage, before)
      ensures Evicted(old(all.Txs()), old(all.remotes), all.Txs(), all.remotes, dropped)
      ensures dropped == {} ==> pending == old(pending) && queue == old(queue)
      ensures Backed(old(Now()), Now())
      ensures dropped != {} ==> Minimal(dropped, old(Excess(tx)))
      ensures if |old(all.Txs())| + NumSlots(tx) <= Limit() then err.None? && dropped == {} else
        && err == old(RoomError(tx, isLocal, gasPriceOn))
        && (err.Some? ==> dropped == {}) && (dropped == {} ==> err.Some? || isLocal)
        && (err.None? ==> DroppedBy(dropped, old(priced.remotes), old(all.remotes), old(Excess(tx)), isLocal))
      ensures Excess(tx) == old(Excess(tx)) - SlotsOf(dropped)
      ensures err.None? && !isLocal && NoTwice(old(priced.remotes)) && |old(all.Txs())| + NumSlots(tx) > Limit() ==>
        Excess(tx) <= 0
      ensures |old(all.Txs())| + NumSlots(tx) <= Limit() ==> unchanged(priced)
    {
      NoneEvicted(all.Txs(), all.remotes);
      NoneLeft();
      err, dropped := None, {};
      var count := all.Count();
      assert Now() == old(Now());
      if count + NumSlots(tx) > Limit() {
        err, dropped := Overfull(tx, isLocal, gasPriceOn, stage, before);
        if err.None? && !isLocal && NoTwice(old(priced.remotes)) {
          OnceFrees(dropped, old(priced.remotes), old(all.remotes), old(Excess(tx)));
        }
      }
    }

    method Overfull(tx: Tx, isLocal: bool, gasPriceOn: bool, ghost stage: Stage, ghost before: State)
      returns (err: Option<Error>, ghost dropped: set<Tx>)
      requires Valid() && priced.Covers({}) && Aligned(stage, before) && |all.Txs()| + NumSlots(tx) > Limit()
      modifies this`pending, this`queue, this`beats, all, priced, pendingNonces
      ensures Valid() && priced.Covers({}) && Aligned(stage, before)
      ensures Evicted(old(all.Txs()), old(all.remotes), all.Txs(), all.remotes, dropped)
      ensures dropped == {} ==> pending == old(pending) && queue == old(queue)
      ensures Backed(old(Now()), Now())
      ensures dropped != {} ==> Minimal(dropped, old(Excess(tx)))
      ensures err == old(RoomError(tx, isLocal, gasPriceOn))
      ensures (err.Some? ==> dropped == {}) && (dropped == {} ==> err.Some? || isLocal)
      ensures err.None? ==> DroppedBy(dropped, old(priced.remotes), old(all.remotes), old(Excess(tx)), isLocal)
      ensures Excess(tx) == old(Excess(tx)) - SlotsOf(dropped)
    {
      NoneEvicted(all.Txs(), all.remotes);
      NoneLeft();
      var under := TooCheap(tx, gasPriceOn && !isLocal);
      if under {
        return Some(Error.Underpriced), {};
      }
      ghost var h := priced.remotes;
      err, dropped := Squeeze(tx, isLocal, stage, before);
      if err.None? {
        SameDrops(dropped, h, old(priced.remotes), old(all.remotes), old(Excess(tx)), isLocal);
      }
    }

    /** The eviction, unless not enough can be evicted. */
    method Squeeze(tx: Tx, isLocal: bool, ghost stage: Stage, ghost before: State)
      returns (err: Option<Error>, ghost dropped: set<Tx>)
      requires Valid() && priced.Covers({}) && Aligned(stage, before) && |all.Txs()| + NumSlots(tx) > Limit()
      modifies this`pending, this`queue, this`beats, all, priced, pendingNonces
      ensures Valid() && priced.Covers({}) && Aligned(stage, before)
      ensures Evicted(old(all.Txs()), old(all.remotes), all.Txs(), all.remotes, dropped)
      ensures dropped == {} ==> pending == old(pending) && queue == old(queue)
      ensures Backed(old(Now()), Now())
      ensures dropped == {} ==> err.Some? || isLocal
      ensures dropped != {} ==> Minimal(dropped, old(Excess(tx)))
      ensures err == if !isLocal && LiveSum(old(priced.remotes), old(all.remotes)) < old(Excess(tx))
        then Some(PoolOverflow) else None
      ensures err.Some? ==> dropped == {}
      ensures err.None? ==> DroppedBy(dropped, old(priced.remotes), old(all.remotes), old(Excess(tx)), isLocal)
      ensures Excess(tx) == old(Excess(tx)) - SlotsOf(dropped)
    {
      PoolFillsSlots();
      var success;
      success, dropped := Evict(Excess(tx) as nat, isLocal, stage, before);
      err := if success then None else Some(PoolOverflow);
    }

    /** Asks the price heap, which only sheds stale entries over it. */
    method TooCheap(tx: Tx, asked: bool) returns (under: bool)
      requires Wired() && priced.Covers({})
      modifies priced
      ensures Wired() && priced.Covers({}) && (under <==> asked && Cheapest(tx))
      ensures Now() == old(Now())
      ensures LiveSum(priced.remotes, all.remotes) == LiveSum(old(priced.remotes), all.remotes)
      ensures SameLive(priced.remotes, old(priced.remotes), all.remotes)
    {
      under := false;
      if asked {
        under := priced.Underpriced(tx);
      }
    }

    /** Takes what is to go off the price heap; nothing leaves the pool yet. */
    method TakeOff(slots: nat, force: bool, ghost stage: Stage, ghost before: State)
      returns (drop: seq<Tx>, success: bool)
      requires Valid() && priced.Covers({}) && Aligned(stage, before)
      modifies priced
      ensures Valid() && priced.Covers(AsSet(drop)) && Aligned(stage, before) && Now() == old(Now())
      ensures success <==> force || slots <= LiveSum(old(priced.remotes), all.remotes)
      ensures if success then Prefix(drop, old(priced.remotes), all.remotes, slots, force) else drop == []
    {
      drop, success := priced.Discard(slots, force);
    }

    /** Drops the cheapest remote transactions until `slots` slots are free; a local newcomer gets what there is. */
    method Evict(slots: nat, isLocal: bool, ghost stage: Stage, ghost before: State)
      returns (success: bool, ghost dropped: set<Tx>)
      requires Valid() && priced.Covers({}) && Aligned(stage, before)
      modifies this`pending, this`queue, this`beats, all, priced, pendingNonces
      ensures Valid() && priced.Covers({}) && Aligned(stage, before)
      ensures Evicted(old(all.Txs()), old(all.remotes), all.Txs(), all.remotes, dropped)
      ensures !success ==> dropped == {} && !isLocal
      ensures success <==> isLocal || slots <= LiveSum(old(priced.remotes), old(all.remotes))
      ensures success ==> DroppedBy(dropped, old(priced.remotes), old(all.remotes), slots, isLocal)
      ensures all.slots == old(all.slots) - SlotsOf(dropped)
      ensures dropped == {} ==> pending == old(pending) && queue == old(queue)
      ensures Backed(old(Now()), Now())
      ensures success && dropped == {} ==> slots == 0 || isLocal
      ensures dropped != {} ==> Minimal(dropped, slots)
    {
      NoneEvicted(all.Txs(), all.remotes);
      NoneLeft();
      ghost var heap, txs := priced.remotes, all.Txs();
      var drop;
      drop, success := TakeOff(slots, isLocal, stage, before);
      dropped := AsSet(drop);
      if success {
        DropFacts(drop, heap, all.remotes, txs, slots, isLocal);
        KickOut(drop, stage, before);
      }
    }

    /** Every pooled transaction takes at least one slot, so the number to discard is never negative. */
    lemma PoolFillsSlots()
      requires Valid()
      ensures |all.Txs()| <= all.slots
    {
      forall tx | tx in all.Txs()
        ensures tx.size > 0
      {
        PooledFacts(pending, queue, all.Txs(), tx);
      }
      SlotsAtLeastCount(all.Txs());
    }

    /** Replaces a pending transaction of the same sender and nonce. */
    method ReplacePending(tx: Tx, isLocal: bool) returns (r: Outcome, ghost outbid: Option<Tx>)
      requires Valid() && priced.Covers({})
      requires tx !in all.Txs() && tx.size > 0 && tx.nonce in ItemsOf(pending, tx.from)
      modifies this`pending, this`beats, all, priced
      ensures Valid() && priced.Covers({})
      ensures r.Refused? ==> r.error == ReplaceUnderpriced && all.Txs() == old(all.Txs()) && pending == old(pending)
      ensures r.Accepted? ==>
        && MadeWay(outbid, tx, config.priceBump, r) && all.Txs() == old(all.Txs()) - AsSingleton(outbid) + {tx}
        && r.replaced && pending == old(pending)[tx.from := Added(old(pending)[tx.from], tx)]
        && beats == old(beats)[tx.from := clock]
        && all.remotes == RemotesWith(old(all.remotes), tx, isLocal, outbid, locals, locals)
      ensures r == Verdict(old(pending), queue, tx, config.priceBump)
      ensures r.Refused? ==> all.remotes == old(all.remotes)
    {
      var a := tx.from;
      var l := pending[a];
      if !Accepts(l, tx, config.priceBump) {
        return Refused(ReplaceUnderpriced), None;
      }
      OwnLists(pending, queue, all.Txs(), a);
      Enter(pending, queue, all.Txs(), tx, true);
      pending := pending[a := Added(l, tx)];
      all.Remove(l.items[tx.nonce]);
      priced.Removed(1);
      all.Add(tx, isLocal);
      priced.Put(tx, isLocal);
      beats := beats[a := clock];
      return Accepted(true), Some(l.items[tx.nonce]);
    }

    /** Enters the queue with a nonce that is not pending. */
    method EnterQueue(tx: Tx, isLocal: bool) returns (r: Outcome, ghost outbid: Option<Tx>)
      requires Valid() && priced.Covers({})
      requires tx !in all.Txs() && tx.size > 0 && tx.nonce !in ItemsOf(pending, tx.from)
      modifies this`queue, this`beats, all, priced
      ensures Valid() && priced.Covers({})
      ensures r.Refused? ==> r.error == ReplaceUnderpriced && all.Txs() == old(all.Txs()) && queue == old(queue)
      ensures r.Accepted? ==>
        && MadeWay(outbid, tx, config.priceBump, r) && all.Txs() == old(all.Txs()) - AsSingleton(outbid) + {tx}
        && queue == old(queue)[tx.from := Added(ListOf(old(queue), tx.from, false), tx)]
        && beats == (if tx.from in old(beats) then old(beats) else old(beats)[tx.from := clock])
        && all.remotes == RemotesWith(old(all.remotes), tx, isLocal, outbid, locals, locals)
      ensures r == Verdict(pending, old(queue), tx, config.priceBump)
      ensures r.Refused? ==> all.remotes == old(all.remotes)
      ensures r == Accepted(false) ==> HeapGrows(tx, isLocal)
    {
      ghost var l := ListOf(queue, tx.from, false);
      outbid := if tx.nonce in l.items then Some(l.items[tx.nonce]) else None;
      OwnLists(pending, queue, all.Txs(), tx.from);
      Enter(pending, queue, all.Txs(), tx, false);
      r := EnqueueTx(tx, isLocal, true, {});
    }

    /** Replaces or queues, and marks the sender of a local queue entry as local. */
    method PlaceListed(tx: Tx, local: bool, isLocal: bool) returns (r: Outcome, ghost outbid: Option<Tx>)
      requires Valid() && priced.Covers({})
      requires tx !in all.Txs() && tx.size > 0
      modifies this`pending, this`queue, this`beats, this`locals, all, priced
      ensures Valid() && priced.Covers({})
      ensures r.Refused? ==>
        r.error == ReplaceUnderpriced && all.Txs() == old(all.Txs()) && pending == old(pending) && queue == old(queue)
      ensures r.Accepted? ==>
        && MadeWay(outbid, tx, config.priceBump, r) && all.Txs() == old(all.Txs()) - AsSingleton(outbid) + {tx}
        && PlacedAs(old(pending), old(queue), pending, queue, tx)
        && all.remotes == RemotesWith(old(all.remotes), tx, isLocal, outbid, old(locals), locals)
      ensures r == Verdict(old(pending), old(queue), tx, config.priceBump)
      ensures r.Refused? ==> all.remotes == old(all.remotes)
      ensures r == Accepted(false) ==> Holds(ItemsOf(queue, tx.from), tx)
      ensures r == Accepted(false) && !local ==> HeapGrows(tx, isLocal)
      ensures locals == old(locals)
        + if r.Accepted? && local && tx.nonce !in ItemsOf(old(pending), tx.from) then {tx.from} else {}
    {
      if tx.from in pending && tx.nonce in pending[tx.from].items {
        r, outbid := ReplacePending(tx, isLocal);
        return;
      }
      r, outbid := EnterQueue(tx, isLocal);
      if r.Accepted? && local {
        MarkLocal(tx.from);
      }
    }

    /** Makes an account local; its remote transactions move over in the lookup. */
    method MarkLocal(a: Addr)
      requires Valid() && priced.Covers({})
      modifies this`locals, all, priced
      ensures Valid() && priced.Covers({}) && all.Txs() == old(all.Txs())
      ensures locals == old(locals) + {a}
      ensures all.remotes ==
        if a in old(locals) then old(all.remotes) else set tx | tx in old(all.remotes) && tx.from !in locals
    {
      if a !in locals {
        locals := locals + {a};
        var migrated := all.RemoteToLocals(locals);
        priced.Removed(migrated);
      }
    }

    /** The end of add, once there is room. */
    method Place(tx: Tx, local: bool, isLocal: bool, ghost stage: Stage, ghost before: State)
      returns (r: Outcome, ghost outbid: Option<Tx>)
      requires Valid() && priced.Covers({}) && Aligned(stage, before)
      requires tx !in all.Txs() && tx.size > 0
      requires Payable(tx, MeansOf(tx.from)) && currentState.Nonce(tx.from) <= tx.nonce
      modifies this`pending, this`queue, this`beats, this`locals, all, priced
      ensures Valid() && priced.Covers({}) && Aligned(stage, before)
      ensures if r.Refused? then pending == old(pending) && queue == old(queue)
        else PlacedAs(old(pending), old(queue), pending, queue, tx)
      ensures Joined(old(all.Txs()), old(all.remotes), all.Txs(), all.remotes, tx, isLocal, outbid, old(locals), locals,
                     config.priceBump, r)
      ensures r == Verdict(old(pending), old(queue), tx, config.priceBump)
      ensures NoneFrom(old(all.Txs()), tx.from) ==> r == Accepted(false)
      ensures Backed(old(Now()), Now())
      ensures r == Accepted(false) ==> Holds(ItemsOf(queue, tx.from), tx)
      ensures r == Accepted(false) && !local ==> HeapGrows(tx, isLocal)
      ensures locals == old(locals) || (r.Accepted? && local && locals == old(locals) + {tx.from})
    {
      ghost var p, q := pending, queue;
      if NoneFrom(all.Txs(), tx.from) {
        FirstOfSender(p, q, all.Txs(), tx, config.priceBump);
      }
      r, outbid := PlaceListed(tx, local, isLocal);
      forall b
        ensures AlignedAt(stage, before, b)
      {
        assert old(AlignedAt(stage, before, b));
        if r.Accepted? {
          PlacedAligned(stage, p, q, pending, queue, tx, b, pendingNonces.At(b), MeansOf(b), before.Nonce(b));
        }
      }
      PlacementBacks(tx);
    }

    /** MakeRoom, as far as it matters to what is added. */
    method ClearRoom(tx: Tx, isLocal: bool, gasPriceOn: bool, ghost stage: Stage, ghost before: State)
      returns (err: Option<Error>, ghost dropped: set<Tx>)
      requires Valid() && priced.Covers({}) && Aligned(stage, before)
      modifies this`pending, this`queue, this`beats, all, priced, pendingNonces
      ensures Valid() && priced.Covers({}) && Aligned(stage, before)
      ensures all.Txs() == old(all.Txs()) - dropped && all.remotes == old(all.remotes) - dropped
      ensures dropped == {} ==> pending == old(pending) && queue == old(queue)
      ensures Backed(old(Now()), Now())
      ensures |old(all.Txs())| + NumSlots(tx) <= Limit() ==> unchanged(priced)
      ensures RoomMade(tx, isLocal, gasPriceOn, err, dropped)
      ensures err.Some? ==> dropped == {} && err.value != AlreadyKnown && NoRoom(Refused(err.value)) == err
    {
      err, dropped := MakeRoom(tx, isLocal, gasPriceOn, stage, before);
    }

    /** What is dropped to make room for `tx`: nothing while there is room, otherwise the cheapest remote transactions
        and no more of them than needed. */
    twostate predicate RoomMade(new tx: Tx, new isLocal: bool, new gasPriceOn: bool, new err: Option<Error>,
                                new dropped: set<Tx>)
    {
      && CheapestFirst(old(all.remotes), dropped) && (dropped != {} ==> Minimal(dropped, old(Excess(tx))))
      && (if |old(all.Txs())| + NumSlots(tx) <= Limit() then err.None? && dropped == {} else
            && err == old(RoomError(tx, isLocal, gasPriceOn))
            && (err.Some? ==> dropped == {}) && (dropped == {} ==> err.Some? || isLocal)
            && (err.None? ==> DroppedBy(dropped, old(priced.remotes), old(all.remotes), old(Excess(tx)), isLocal)))
    }

    /** Place, after `dropped` has made room in the views `v`. */
    method PlaceAfter(tx: Tx, local: bool, isLocal: bool, ghost stage: Stage, ghost before: State, ghost v: View,
                      ghost dropped: set<Tx>)
      returns (r: Outcome, ghost outbid: Option<Tx>)
      requires Valid() && priced.Covers({}) && Aligned(stage, before) && Backed(v, Now())
      requires tx !in v.txs && tx.size > 0
      requires Payable(tx, MeansOf(tx.from)) && currentState.Nonce(tx.from) <= tx.nonce
      requires all.Txs() == v.txs - dropped && all.remotes == v.remotes - dropped
      requires dropped == {} ==> pending == v.pending && queue == v.queue
      modifies this`pending, this`queue, this`beats, this`locals, all, priced
      ensures Valid() && priced.Covers({}) && Aligned(stage, before) && Backed(v, Now())
      ensures r != Refused(AlreadyKnown) && NoRoom(r).None?
      ensures dropped == {} ==> r == Verdict(v.pending, v.queue, tx, config.priceBump)
      ensures dropped == {} ==>
        if r.Refused? then pending == v.pending && queue == v.queue
        else PlacedAs(v.pending, v.queue, pending, queue, tx)
      ensures Joined(v.txs - dropped, v.remotes - dropped, all.Txs(), all.remotes, tx, isLocal, outbid, old(locals),
                     locals, config.priceBump, r)
      ensures NoneFrom(v.txs, tx.from) ==> r == Accepted(false)
      ensures r == Accepted(false) ==> Holds(ItemsOf(queue, tx.from), tx) && (local || HeapGrows(tx, isLocal))
      ensures locals == old(locals) || (r.Accepted? && local && locals == old(locals) + {tx.from})
    {
      ghost var u := Now();
      r, outbid := Place(tx, local, isLocal, stage, before);
      BackedAgain(v, u, Now());
    }

    /** add, once the transaction is known to be new and valid. */
    method AddValid(tx: Tx, local: bool, isLocal: bool, gasPriceOn: bool, ghost stage: Stage, ghost before: State)
      returns (r: Outcome, ghost dropped: set<Tx>, ghost outbid: Option<Tx>)
      requires Valid() && priced.Covers({}) && Aligned(stage, before)
      requires tx !in all.Txs() && tx.size > 0
      requires Payable(tx, MeansOf(tx.from)) && currentState.Nonce(tx.from) <= tx.nonce
      modifies this`pending, this`queue, this`beats, this`locals, all, priced, pendingNonces
      ensures Valid() && priced.Covers({}) && Aligned(stage, before)
      ensures Backed(old(Now()), Now())
      ensures r != Refused(AlreadyKnown) && RoomMade(tx, isLocal, gasPriceOn, NoRoom(r), dropped)
      ensures NoRoom(r).None? && dropped == {} ==> r == Verdict(old(pending), old(queue), tx, config.priceBump)
      ensures dropped == {} ==>
        if r.Refused? then pending == old(pending) && queue == old(queue)
        else PlacedAs(old(pending), old(queue), pending, queue, tx)
      ensures NoRoom(r).None? && NoneFrom(old(all.Txs()), tx.from) ==> r == Accepted(false)
      ensures Joined(old(all.Txs()) - dropped, old(all.remotes) - dropped, all.Txs(), all.remotes, tx, isLocal, outbid,
                     old(locals), locals, config.priceBump, r)
      ensures r == Accepted(false) ==> Holds(ItemsOf(queue, tx.from), tx)
      ensures r == Accepted(false) && !local && |old(all.Txs())| + NumSlots(tx) <= Limit() ==> HeapGrows(tx, isLocal)
      ensures locals == old(locals) || (r.Accepted? && local && locals == old(locals) + {tx.from})
    {
      var full;
      ghost var v := Now();
      full, dropped := ClearRoom(tx, isLocal, gasPriceOn, stage, before);
      if full.Some? {
        r, outbid := Refused(full.value), None;
      } else {
        r, outbid := PlaceAfter(tx, local, isLocal, stage, before, v, dropped);
      }
      assert NoRoom(r) == full && r != Refused(AlreadyKnown);
    }

    /** add: validates, makes room if the pool is full, then replaces a pending transaction or enters the queue. */
    method Add(tx: Tx, local: bool, gasPriceOn: bool, checks: Checks, ghost stage: Stage, ghost before: State)
      returns (r: Outcome, ghost dropped: set<Tx>, ghost outbid: Option<Tx>)
      requires Valid() && priced.Covers({}) && Aligned(stage, before) && tx.size > 0
      modifies this`pending, this`queue, this`beats, this`locals, all, priced, pendingNonces
      ensures Valid() && priced.Covers({}) && Aligned(stage, before)
      ensures r == Refused(AlreadyKnown) <==> tx in old(all.Txs())
      ensures Backed(old(Now()), Now())
      ensures tx !in old(all.Txs()) ==>
        var isLocal := local || tx.from in old(locals);
        var invalid := Validate(tx, local || tx.from in old(locals), old(RulesNow(gasPriceOn)), checks);
        if invalid.Some? then r == Refused(invalid.value) && dropped == {} else
          && RoomMade(tx, isLocal, gasPriceOn, NoRoom(r), dropped)
          && (NoRoom(r).None? && dropped == {} ==> r == Verdict(old(pending), old(queue), tx, config.priceBump))
          && (NoRoom(r).None? && NoneFrom(old(all.Txs()), tx.from) ==> r == Accepted(false))
      ensures r.Accepted? && dropped == {} ==> PlacedAs(old(pending), old(queue), pending, queue, tx)
      ensures r.Refused? && dropped == {} ==> pending == old(pending) && queue == old(queue)
      ensures NoRoom(r).Some? ==> dropped == {}
      ensures Joined(old(all.Txs()) - dropped, old(all.remotes) - dropped, all.Txs(), all.remotes, tx,
                     local || tx.from in old(locals), outbid, old(locals), locals, config.priceBump, r)
      ensures r == Accepted(false) ==> Holds(ItemsOf(queue, tx.from), tx)
      ensures r == Accepted(false) && !local && |old(all.Txs())| + NumSlots(tx) <= Limit() ==>
        HeapGrows(tx, local || tx.from in old(locals))
      ensures locals == old(locals) || (r.Accepted? && local && locals == old(locals) + {tx.from})
    {
      dropped, outbid := {}, None;
      NoneLeft();
      if tx in all.Txs() {
        return Refused(AlreadyKnown), {}, None;
      }
      var isLocal := local || tx.from in locals;
      var invalid := Validate(tx, isLocal, RulesNow(gasPriceOn), checks);
      if invalid.Some? {
        return Refused(invalid.value), {}, None;
      }
      r, dropped, outbid := AddValid(tx, local, isLocal, gasPriceOn, stage, before);
    }

    ghost predicate AdvancedAt(a: Addr)
      reads this`pending, this`queue, this`currentState, this`currentMaxGas, this`pendingNonces, pendingNonces
    {
      Advanced(ItemsOf(pending, a), ItemsOf(queue, a), pendingNonces.At(a), MeansOf(a))
    }

    ghost predicate TrimmedAt(a: Addr)
      reads this`pending, this`queue, this`currentState, this`currentMaxGas, this`pendingNonces, pendingNonces
    {
      AlignedAt(Trimming, currentState, a)
    }

    /** The account's next nonce is not waiting in its queue. */
    ghost predicate FreeAt(a: Addr)
      reads this`pending, this`queue, this`currentState
    {
      NextFree(ItemsOf(pending, a), ItemsOf(queue, a), currentState.Nonce(a))
    }

    /** The transaction at the state nonce is queued, and the virtual nonce is too low for promotion to find it. */
    ghost predicate StrandedAt(a: Addr)
      reads this`queue, this`currentState, this`pendingNonces, pendingNonces
    {
      pendingNonces.At(a) < currentState.Nonce(a) && currentState.Nonce(a) in ItemsOf(queue, a)
    }

    /** Of the accounts in `fit`, those in `done` have a free next nonce, and no other one is stranded. */
    ghost predicate Freeing(fit: set<Addr>, done: set<Addr>)
      reads this`pending, this`queue, this`currentState, this`pendingNonces, pendingNonces
    {
      forall a :: FreeingAt(fit, done, a)
    }

    ghost predicate FreeingAt(fit: set<Addr>, done: set<Addr>, a: Addr)
      reads this`pending, this`queue, this`currentState, this`pendingNonces, pendingNonces
    {
      a in fit ==> if a in done then FreeAt(a) else !StrandedAt(a)
    }

    /** The accounts in `done` have been promoted in a reset, the others are still lined up as `stage` asks. */
    ghost predicate Promoting(stage: Stage, before: State, done: set<Addr>)
      reads this`pending, this`queue, this`currentState, this`currentMaxGas, this`pendingNonces, pendingNonces
    {
      forall a :: PromotingAt(stage, before, done, a)
    }

    ghost predicate PromotingAt(stage: Stage, before: State, done: set<Addr>, a: Addr)
      reads this`pending, this`queue, this`currentState, this`currentMaxGas, this`pendingNonces, pendingNonces
    {
      if a in done then AdvancedAt(a) else AlignedAt(stage, before, a)
    }

    /** The accounts in `todo` are still to be demoted. */
    ghost predicate Demoting(todo: set<Addr>)
      reads this`pending, this`queue, this`currentState, this`currentMaxGas, this`pendingNonces, pendingNonces
    {
      forall a :: if a in todo then AdvancedAt(a) else TrimmedAt(a) || (AdvancedAt(a) && a !in pending)
    }

    /** PromoteAccount, account by account. */
    method PromoteFramed(a: Addr, gasPriceOn: bool) returns (promoted: seq<Tx>)
      requires Valid() && priced.Covers({}) && a in queue
      modifies this`pending, this`queue, this`beats, all, priced, pendingNonces
      ensures Valid() && priced.Covers({})
      ensures Thinned()
      ensures promoted == Flatten(Promotable(old(queue)[a], MeansOf(a), gasPriceOn, old(pendingNonces.At(a))))
      ensures PromotedAs(old(pending), old(queue), old(pendingNonces.At(a)), pending, queue, pendingNonces.At(a),
                         MeansOf(a), gasPriceOn, CapOf(a), a)
      ensures forall b :: b != a ==>
        KeptAs(old(pending), old(queue), old(pendingNonces.At(b)), pending, queue, pendingNonces.At(b), b)
    {
      ghost var p, q := pending, queue;
      ghost var kept := Queued(queue[a], MeansOf(a), gasPriceOn, pendingNonces.At(a), CapOf(a));
      promoted := PromoteAccount(a, gasPriceOn);
      assert ItemsOf(queue, a) == kept.items by {
        WithFacts(q, a, kept);
      }
      forall b | b != a
        ensures KeptAs(p, q, old(pendingNonces.At(b)), pending, queue, pendingNonces.At(b), b)
      {
        WithValues(q, a, kept, b);
        WithValues(p, a, AddAll(ListOf(p, a, true), promoted), b);
      }
    }

    /** PromoteAccount with the nonces of every account in view. */
    method PromoteOne(a: Addr, gasPriceOn: bool, ghost stage: Stage, ghost before: State, ghost done: set<Addr>,
                      ghost fit: set<Addr>, ghost freed: set<Addr>)
      returns (promoted: seq<Tx>)
      requires Valid() && priced.Covers({}) && a in queue
      requires gasPriceOn ==> Promoting(stage, before, done) && a !in done && Promotes(stage)
      requires gasPriceOn && stage == Calm ==> Freeing(fit, freed)
      modifies this`pending, this`queue, this`beats, all, priced, pendingNonces
      ensures Valid() && priced.Covers({})
      ensures Thinned()
      ensures gasPriceOn ==> Promoting(stage, before, if stage == Moving then done + {a} else done)
      ensures gasPriceOn && stage == Calm ==> Freeing(fit, freed + {a})
      ensures PromotedAs(old(pending), old(queue), old(pendingNonces.At(a)), pending, queue, pendingNonces.At(a),
                         MeansOf(a), gasPriceOn, CapOf(a), a)
      ensures forall b :: b != a ==>
        KeptAs(old(pending), old(queue), old(pendingNonces.At(b)), pending, queue, pendingNonces.At(b), b)
    {
      ghost var l := queue[a];
      assert ListOk(l, false, a) by {
        ListsAreOk(pending, queue, all.Txs(), a);
      }
      promoted := PromoteFramed(a, gasPriceOn);
      if gasPriceOn {
        PromotesOne(stage, before, done, a, l);
        if stage == Calm {
          assert old(PromotingAt(stage, before, done, a));
          FreesOne(fit, freed, a, l);
        }
      }
    }

    /** The promoted account moves on to the stage before demotion, or stays settled. */
    twostate lemma PromotesOne(new stage: Stage, new before: State, new done: set<Addr>, new a: Addr,
                               new l: TxListValue)
      requires currentState == old(currentState) && currentMaxGas == old(currentMaxGas)
      requires a in old(queue) && l == old(queue)[a] && ListOk(l, false, a) && a !in done && Promotes(stage)
      requires old(Promoting(stage, before, done))
      requires PromotedAs(old(pending), old(queue), old(pendingNonces.At(a)), pending, queue, pendingNonces.At(a),
                          MeansOf(a), true, CapOf(a), a)
      requires forall b :: b != a ==>
        KeptAs(old(pending), old(queue), old(pendingNonces.At(b)), pending, queue, pendingNonces.At(b), b)
      ensures Promoting(stage, before, if stage == Moving then done + {a} else done)
    {
      ghost var now := if stage == Moving then done + {a} else done;
      assert PromotingAt(stage, before, now, a) by {
        assert old(PromotingAt(stage, before, done, a));
        PromotesSelf(stage, before, a, l);
      }
      forall b | b != a
        ensures PromotingAt(stage, before, now, b)
      {
        assert old(PromotingAt(stage, before, done, b));
        KeptInLine(stage, before, b);
      }
    }

    twostate lemma PromotesSelf(new stage: Stage, new before: State, new a: Addr, new l: TxListValue)
      requires currentState == old(currentState) && currentMaxGas == old(currentMaxGas)
      requires a in old(queue) && l == old(queue)[a] && ListOk(l, false, a) && Promotes(stage)
      requires old(AlignedAt(stage, before, a))
      requires PromotedAs(old(pending), old(queue), old(pendingNonces.At(a)), pending, queue, pendingNonces.At(a),
                          MeansOf(a), true, CapOf(a), a)
      ensures if stage == Moving then AdvancedAt(a) else AlignedAt(stage, before, a)
    {
      PromoteStaged(stage, ItemsOf(old(pending), a), l, old(pendingNonces.At(a)), MeansOf(a), before.Nonce(a),
                    CapOf(a), a, Flatten(Promotable(l, MeansOf(a), true, old(pendingNonces.At(a)))),
                    pendingNonces.At(a));
    }

    /** An account that is kept as it is stays in line. */
    twostate lemma KeptInLine(new stage: Stage, new before: State, new b: Addr)
      requires KeptAs(old(pending), old(queue), old(pendingNonces.At(b)), pending, queue, pendingNonces.At(b), b)
      requires currentState == old(currentState) && currentMaxGas == old(currentMaxGas)
      ensures old(AdvancedAt(b)) ==> AdvancedAt(b)
      ensures old(AlignedAt(stage, before, b)) ==> AlignedAt(stage, before, b)
      ensures old(FreeAt(b)) ==> FreeAt(b)
    {
    }

    /** The promoted account's next nonce is free now. */
    twostate lemma FreesOne(new fit: set<Addr>, new freed: set<Addr>, new a: Addr, new l: TxListValue)
      requires currentState == old(currentState) && currentMaxGas == old(currentMaxGas)
      requires a in old(queue) && l == old(queue)[a] && ListOk(l, false, a) && old(AlignedAt(Calm, currentState, a))
      requires old(Freeing(fit, freed))
      requires PromotedAs(old(pending), old(queue), old(pendingNonces.At(a)), pending, queue, pendingNonces.At(a),
                          MeansOf(a), true, CapOf(a), a)
      requires forall b :: b != a ==>
        KeptAs(old(pending), old(queue), old(pendingNonces.At(b)), pending, queue, pendingNonces.At(b), b)
      ensures Freeing(fit, freed + {a})
    {
      assert FreeingAt(fit, freed + {a}, a) by {
        assert old(FreeingAt(fit, freed, a));
        PromoteFrees(ItemsOf(old(pending), a), l, old(pendingNonces.At(a)), MeansOf(a), CapOf(a), a);
      }
      forall b | b != a
        ensures FreeingAt(fit, freed + {a}, b)
      {
        assert old(FreeingAt(fit, freed, b));
        KeptInLine(Calm, currentState, b);
      }
    }

    /** Nothing is waiting in a queue that is not there. */
    lemma NoQueueIsFree(fit: set<Addr>, freed: set<Addr>, a: Addr)
      requires Freeing(fit, freed) && a !in queue
      ensures Freeing(fit, freed + {a})
    {
      forall b
        ensures FreeingAt(fit, freed + {a}, b)
      {
        assert FreeingAt(fit, freed, b);
      }
    }

    /** The accounts in `done` have been promoted since the views were `p0`, `q0` and the virtual nonces `v0`;
        nothing has happened to the others. */
    ghost predicate PromotedSoFar(p0: Accounts, q0: Accounts, v0: imap<Addr, nat>, gasPriceOn: bool, done: set<Addr>)
      reads this`pending, this`queue, this`currentState, this`currentMaxGas, this`locals, this`pendingNonces
      reads pendingNonces
    {
      forall a :: PromotedSoFarAt(p0, q0, v0, gasPriceOn, done, a)
    }

    ghost predicate PromotedSoFarAt(p0: Accounts, q0: Accounts, v0: imap<Addr, nat>, gasPriceOn: bool, done: set<Addr>,
                                    a: Addr)
      reads this`pending, this`queue, this`currentState, this`currentMaxGas, this`locals, this`pendingNonces
      reads pendingNonces
    {
      a in v0 && PromotingAs(p0, q0, v0[a], pending, queue, pendingNonces.At(a), MeansOf(a), gasPriceOn, CapOf(a),
                             done, a)
    }

    twostate lemma PromotionGoesOn(new p0: Accounts, new q0: Accounts, new v0: imap<Addr, nat>, new gasPriceOn: bool,
                                   new done: set<Addr>, new a: Addr)
      requires currentState == old(currentState) && currentMaxGas == old(currentMaxGas) && locals == old(locals)
      requires old(PromotedSoFar(p0, q0, v0, gasPriceOn, done)) && a !in done
      requires PromotedAs(old(pending), old(queue), old(pendingNonces.At(a)), pending, queue, pendingNonces.At(a),
                          MeansOf(a), gasPriceOn, CapOf(a), a)
      requires forall b :: b != a ==>
        KeptAs(old(pending), old(queue), old(pendingNonces.At(b)), pending, queue, pendingNonces.At(b), b)
      ensures PromotedSoFar(p0, q0, v0, gasPriceOn, done + {a})
    {
      forall b
        ensures PromotedSoFarAt(p0, q0, v0, gasPriceOn, done + {a}, b)
      {
        assert old(PromotedSoFarAt(p0, q0, v0, gasPriceOn, done, b));
        PromotionStep(p0, q0, v0[b], old(pending), old(queue), old(pendingNonces.At(b)), pending, queue,
                      pendingNonces.At(b), MeansOf(b), gasPriceOn, CapOf(b), done, a, b);
      }
    }

    /** An account without a queue needs no promotion. */
    lemma NothingToPromote(p0: Accounts, q0: Accounts, v0: imap<Addr, nat>, gasPriceOn: bool, done: set<Addr>, a: Addr)
      requires PromotedSoFar(p0, q0, v0, gasPriceOn, done) && a !in done && a !in queue
      ensures PromotedSoFar(p0, q0, v0, gasPriceOn, done + {a})
    {
      forall b
        ensures PromotedSoFarAt(p0, q0, v0, gasPriceOn, done + {a}, b)
      {
        assert PromotedSoFarAt(p0, q0, v0, gasPriceOn, done, b);
      }
    }

    lemma NonePromoted(v0: imap<Addr, nat>, gasPriceOn: bool)
      requires forall a :: a in v0 && v0[a] == pendingNonces.At(a)
      ensures PromotedSoFar(pending, queue, v0, gasPriceOn, {})
    {
      forall a
        ensures PromotedSoFarAt(pending, queue, v0, gasPriceOn, {}, a)
      {
      }
    }

    /** Promotes one account, if it has a queue. */
    method PromoteNext(a: Addr, gasPriceOn: bool, ghost stage: Stage, ghost before: State, ghost done0: set<Addr>,
                       ghost fit: set<Addr>, ghost visited: set<Addr>, ghost p0: Accounts, ghost q0: Accounts,
                       ghost v0: imap<Addr, nat>)
      returns (ghost done: set<Addr>)
      requires Valid() && priced.Covers({})
      requires gasPriceOn ==> Promoting(stage, before, done0) && a !in done0 && Promotes(stage)
      requires gasPriceOn && stage == Calm ==> Freeing(fit, visited)
      modifies this`pending, this`queue, this`beats, all, priced, pendingNonces
      ensures Valid() && priced.Covers({})
      ensures Thinned()
      ensures gasPriceOn ==> Promoting(stage, before, done)
      ensures gasPriceOn && stage == Calm ==> Freeing(fit, visited + {a})
      ensures a !in visited && old(PromotedSoFar(p0, q0, v0, gasPriceOn, visited)) ==>
        PromotedSoFar(p0, q0, v0, gasPriceOn, visited + {a})
      ensures forall b :: b in queue ==> b in old(queue)
      ensures forall b :: b != a ==> (b in queue <==> b in old(queue))
      ensures done == if stage == Moving && a in old(queue) then done0 + {a} else done0
    {
      ghost var follow := a !in visited && PromotedSoFar(p0, q0, v0, gasPriceOn, visited);
      done := done0;
      if a in queue {
        var promoted := PromoteOne(a, gasPriceOn, stage, before, done0, fit, visited);
        done := if stage == Moving then done0 + {a} else done0;
        if follow {
          PromotionGoesOn(p0, q0, v0, gasPriceOn, visited, a);
        }
        QueuesStay(a);
      } else {
        if gasPriceOn && stage == Calm {
          NoQueueIsFree(fit, visited, a);
        }
        if follow {
          NothingToPromote(p0, q0, v0, gasPriceOn, visited, a);
        }
      }
    }

    twostate lemma QueuesStay(new a: Addr)
      requires a in old(queue)
      requires forall b :: b != a ==>
        KeptAs(old(pending), old(queue), old(pendingNonces.At(b)), pending, queue, pendingNonces.At(b), b)
      ensures forall b :: b in queue ==> b in old(queue)
      ensures forall b :: b != a ==> (b in queue <==> b in old(queue))
    {
      forall b | b != a
        ensures b in queue <==> b in old(queue)
      {
        assert KeptAs(old(pending), old(queue), old(pendingNonces.At(b)), pending, queue, pendingNonces.At(b), b);
      }
    }

    /** Promotes what each account's queue has ready. In a reset every queue is promoted. */
    method PromoteExecutables(accounts: seq<Addr>, gasPriceOn: bool, ghost stage: Stage, ghost before: State)
      returns (ghost done: set<Addr>)
      requires Valid() && priced.Covers({}) && Aligned(stage, before) && Promotes(stage)
      requires stage == Moving ==> DistinctAddrs(accounts)
      modifies this`pending, this`queue, this`beats, all, priced, pendingNonces
      ensures Valid() && priced.Covers({})
      ensures Thinned()
      ensures gasPriceOn ==> Promoting(stage, before, done)
      ensures forall a :: a in queue ==> a in old(queue)
      ensures forall a :: a in done <==> stage == Moving && a in old(queue) && a in accounts
      ensures gasPriceOn && stage == Calm ==>
        Freeing((set a | a in accounts && !old(StrandedAt(a))), AddrSet(accounts))
      ensures DistinctAddrs(accounts) ==>
        PromotedSoFar(old(pending), old(queue), old(Now()).virtual, gasPriceOn, AddrSet(accounts))
    {
      done := {};
      ghost var fit := set a | a in accounts && !StrandedAt(a);
      ghost var v0 := Now().virtual;
      NonePromoted(v0, gasPriceOn);
      ghost var p0, q0, visited, distinct := pending, queue, {}, DistinctAddrs(accounts);
      for i := 0 to |accounts|
        invariant Valid() && priced.Covers({})
        invariant Thinned()
        invariant gasPriceOn ==> Promoting(stage, before, done)
        invariant gasPriceOn && stage == Calm ==> Freeing(fit, visited)
        invariant distinct ==> PromotedSoFar(p0, q0, v0, gasPriceOn, visited)
        invariant forall a :: a in visited <==> a in accounts[..i]
        invariant forall a :: a in queue ==> a in q0
        invariant forall a :: a in q0 && a !in visited ==> a in queue
        invariant forall a :: a in done <==> stage == Moving && a in q0 && a in visited
      {
        var a := accounts[i];
        assert accounts[..i + 1] == accounts[..i] + [a];
        assert distinct ==> a !in visited;
        done := PromoteNext(a, gasPriceOn, stage, before, done, fit, visited, p0, q0, v0);
        visited := visited + {a};
      }
      assert accounts[..|accounts|] == accounts;
      assert visited == AddrSet(accounts);
    }

    /** DemoteAccount, account by account. */
    method DemoteFramed(a: Addr)
      requires Valid() && priced.Covers({}) && a in pending
      modifies this`pending, this`queue, this`beats, all, priced
      ensures Valid() && priced.Covers({})
      ensures Thinned()
      ensures ListOk(old(pending)[a], true, a)
      ensures DemotedAs(old(pending), old(queue), pending, queue, MeansOf(a), a)
      ensures forall b :: b != a ==> SameAs(old(pending), old(queue), pending, queue, b)
    {
      ListsAreOk(pending, queue, all.Txs(), a);
      WithFacts(pending, a, Demoted(pending[a], MeansOf(a)));
      ghost var p, q := pending, queue;
      DemoteAccount(a);
      forall b | b != a
        ensures SameAs(p, q, pending, queue, b)
      {
        ElsewhereFacts(q, queue, a, b);
        WithValues(p, a, Demoted(p[a], MeansOf(a)), b);
      }
    }

    /** Demotion with the nonces of every account in view. */
    twostate lemma DemotesOne(new a: Addr, new todo: set<Addr>)
      requires currentState == old(currentState) && currentMaxGas == old(currentMaxGas)
      requires pendingNonces == old(pendingNonces) && forall b :: pendingNonces.At(b) == old(pendingNonces.At(b))
      requires old(Demoting(todo)) && a in todo && a in old(pending) && ListOk(old(pending)[a], true, a)
      requires DemotedAs(old(pending), old(queue), pending, queue, MeansOf(a), a)
      requires forall b :: b != a ==> SameAs(old(pending), old(queue), pending, queue, b)
      ensures Demoting(todo - {a})
    {
      assert TrimmedAt(a) by {
        assert old(AdvancedAt(a));
        DemoteAdvanced(old(pending)[a], ItemsOf(old(queue), a), pendingNonces.At(a), MeansOf(a), a);
      }
      forall b | b != a
        ensures if b in todo then AdvancedAt(b) else TrimmedAt(b) || (AdvancedAt(b) && b !in pending)
      {
        assert if b in todo then old(AdvancedAt(b))
          else old(TrimmedAt(b)) || (old(AdvancedAt(b)) && b !in old(pending));
        assert SameAs(old(pending), old(queue), pending, queue, b);
      }
    }

    /** All accounts but those in `todo` have been demoted since the views were `p0` and `q0`. */
    ghost predicate DemotedSoFar(p0: Accounts, q0: Accounts, todo: set<Addr>)
      reads this`pending, this`queue, this`currentState, this`currentMaxGas
    {
      forall a :: DemotingAs(p0, q0, pending, queue, currentState, currentMaxGas, todo, a)
    }

    twostate lemma DemotionGoesOn(new p0: Accounts, new q0: Accounts, new todo: set<Addr>, new a: Addr)
      requires currentState == old(currentState) && currentMaxGas == old(currentMaxGas)
      requires old(DemotedSoFar(p0, q0, todo)) && a in todo
      requires DemotedAs(old(pending), old(queue), pending, queue, MeansOf(a), a)
      requires forall b :: b != a ==> SameAs(old(pending), old(queue), pending, queue, b)
      ensures DemotedSoFar(p0, q0, todo - {a})
    {
      forall b
        ensures DemotingAs(p0, q0, pending, queue, currentState, currentMaxGas, todo - {a}, b)
      {
        assert old(DemotingAs(p0, q0, pending, queue, currentState, currentMaxGas, todo, b));
        DemotionStep(p0, q0, old(pending), old(queue), pending, queue, currentState, currentMaxGas, todo, a, b);
      }
    }

    /** Demotes one of the accounts still to do. */
    method DemoteOne(a: Addr, ghost lined: bool, ghost p0: Accounts, ghost q0: Accounts, ghost todo: set<Addr>)
      requires Valid() && priced.Covers({}) && a in pending && a in todo
      requires lined ==> Demoting(todo)
      requires DemotedSoFar(p0, q0, todo)
      modifies this`pending, this`queue, this`beats, all, priced
      ensures Valid() && priced.Covers({})
      ensures Thinned()
      ensures lined ==> Demoting(todo - {a})
      ensures DemotedSoFar(p0, q0, todo - {a})
    {
      DemoteFramed(a);
      DemotionGoesOn(p0, q0, todo, a);
      if lined {
        DemotesOne(a, todo);
      }
    }

    /** demoteUnexecutables. */
    method DemoteUnexecutables(ghost lined: bool)
      requires Valid() && priced.Covers({})
      requires lined ==> forall a :: AdvancedAt(a)
      modifies this`pending, this`queue, this`beats, all, priced
      ensures Valid() && priced.Covers({})
      ensures Thinned()
      ensures DemotedSoFar(old(pending), old(queue), {})
      ensures lined ==> forall a :: TrimmedAt(a)
    {
      ghost var p0, q0 := pending, queue;
      var todo := pending.Keys;
      NoneDemoted(p0, q0);
      while todo != {}
        invariant Valid() && priced.Covers({})
        invariant Thinned()
        invariant todo <= p0.Keys && DemotedSoFar(p0, q0, todo)
        invariant lined ==> Demoting(todo)
        decreases todo
      {
        var a :| a in todo;
        assert a in pending by {
          assert DemotingAs(p0, q0, pending, queue, currentState, currentMaxGas, todo, a);
        }
        DemoteOne(a, lined, p0, q0, todo);
        todo := todo - {a};
      }
      if lined {
        forall a
          ensures TrimmedAt(a)
        {
          if !TrimmedAt(a) {
            UnlistedIsTrimmed(ItemsOf(queue, a), pendingNonces.At(a), MeansOf(a));
          }
        }
      }
    }

    lemma NoneDemoted(p0: Accounts, q0: Accounts)
      requires p0 == pending && q0 == queue
      ensures DemotedSoFar(p0, q0, p0.Keys)
    {
      forall a
        ensures DemotingAs(p0, q0, pending, queue, currentState, currentMaxGas, p0.Keys, a)
      {
      }
    }

    /** The same accounts have pending transactions as before, and the virtual nonces of the others are what they
        were. */
    twostate predicate IdleKept()
      reads this`pending, this`pendingNonces, pendingNonces
    {
      && pending.Keys == old(pending).Keys
      && forall a :: a !in pending ==> pendingNonces.At(a) == old(pendingNonces.At(a))
    }

    twostate lemma BackedIsIdle()
      requires Backed(old(Now()), Now()) && pending == old(pending)
      ensures IdleKept()
    {
      forall a
        ensures pendingNonces.At(a) == old(pendingNonces.At(a))
      {
        assert BackedAt(old(Now()), Now(), a);
      }
    }

    /** Caps one pending list by one transaction: its highest nonce goes, and the virtual nonce is lowered to it. */
    method CapListed(a: Addr)
      requires Valid() && priced.Covers({}) && a in pending && |pending[a].items| >= 2
      modifies this`pending, all, priced, pendingNonces
      ensures Valid() && priced.Covers({})
      ensures Thinned()
      ensures var l := old(pending)[a]; pending == old(pending)[a := Shortened(l, |l.items| - 1)]
      ensures var m, top := old(pending)[a].items, Greatest(old(pending)[a].items.Keys);
        && Shortened(old(pending)[a], |m| - 1).items == m - {top} && top in m
        && all.Txs() == old(all.Txs()) - {m[top]}
        && forall b ::
             pendingNonces.At(b) == (if b == a then Min(top, old(pendingNonces.At(a))) else old(pendingNonces.At(b)))
    {
      var l := pending[a];
      CappedPending(pending, queue, all.Txs(), a);
      var kept := Shortened(l, |l.items| - 1);
      var caps := Flatten(l.items - kept.items.Keys);
      pending := pending[a := kept];
      var tx := caps[0];
      all.Remove(tx);
      pendingNonces.SetIfLower(a, tx.nonce);
      priced.Removed(|caps|);
    }

    /** The same with the nonces of every account in view. */
    method CapOne(a: Addr, ghost stage: Stage, ghost before: State)
      requires Valid() && priced.Covers({}) && Aligned(stage, before) && (stage == Any || stage == Trimming)
      requires a in pending && |pending[a].items| >= 2
      modifies this`pending, all, priced, pendingNonces
      ensures Valid() && priced.Covers({}) && Aligned(stage, before)
      ensures Thinned() && IdleKept()
      ensures var l := old(pending)[a]; pending == old(pending)[a := Shortened(l, |l.items| - 1)]
      ensures forall b ::
        pendingNonces.At(b) == (if b == a then Min(Greatest(old(pending)[a].items.Keys), old(pendingNonces.At(a)))
                                else old(pendingNonces.At(b)))
    {
      ghost var m := pending[a].items;
      CapListed(a);
      forall b
        ensures AlignedAt(stage, before, b)
      {
        assert old(AlignedAt(stage, before, b));
        if b == a && stage == Trimming {
          CapTrimmed(m, ItemsOf(queue, a), old(pendingNonces.At(a)), MeansOf(a), Greatest(m.Keys));
        }
      }
    }

    /** One round: every list of `who`, all of length `level + 1`, loses its highest nonce. */
    method CapRound(who: seq<Addr>, ghost level: nat, ghost stage: Stage, ghost before: State)
      requires Valid() && priced.Covers({}) && Aligned(stage, before) && (stage == Any || stage == Trimming)
      requires level >= 1 && DistinctAddrs(who) && Level(pending, who, level + 1)
      modifies this`pending, all, priced, pendingNonces
      ensures Valid() && priced.Covers({}) && Aligned(stage, before)
      ensures Thinned() && IdleKept()
      ensures AtLevel(old(pending), pending, who, level) && Total(pending) == Total(old(pending)) - |who|
    {
      ghost var p := pending;
      assert AddrSet(who[..0]) == {};
      NoneLevelled(p, level);
      for i := 0 to |who|
        invariant Valid() && priced.Covers({}) && Aligned(stage, before)
        invariant Thinned() && IdleKept()
        invariant Levelled(p, pending, AddrSet(who[..i]), level) && Total(pending) == Total(p) - i
      {
        RoundStep(p, pending, who, i, level);
        CapOne(who[i], stage, before);
      }
      RoundEnds(p, pending, who, level);
    }

    /** A round, seen from the lists `p` before truncation. */
    method NextLevel(who: seq<Addr>, ghost p: Accounts, ghost upper: nat, ghost level: nat, ghost stage: Stage,
                     ghost before: State)
      requires Valid() && priced.Covers({}) && Aligned(stage, before) && (stage == Any || stage == Trimming)
      requires upper == level + 1 && level >= 1 && who != [] && DistinctAddrs(who) && AtLevel(p, pending, who, upper)
      modifies this`pending, all, priced, pendingNonces
      ensures Valid() && priced.Covers({}) && Aligned(stage, before)
      ensures Thinned() && IdleKept()
      ensures AtLevel(p, pending, who, level) && HasLength(pending, who[|who| - 1], level)
      ensures Total(pending) == Total(old(pending)) - |who|
    {
      ghost var m := pending;
      CapRound(who, level, stage, before);
      LastLength(pending, who, level);
      LevelledAgain(p, m, pending, AddrSet(who), upper, level);
    }

    /** Rounds over `who` until the total fits or the lists are down to `threshold`. */
    method Equalize(who: seq<Addr>, threshold: nat, total0: nat, ghost level0: nat, ghost stage: Stage,
                    ghost before: State)
      returns (total: nat, ghost level: nat)
      requires Valid() && priced.Covers({}) && Aligned(stage, before) && (stage == Any || stage == Trimming)
      requires who != [] && DistinctAddrs(who) && Level(pending, who, level0) && 1 <= threshold <= level0
      requires total0 == Total(pending) && total0 > config.globalSlots
      modifies this`pending, all, priced, pendingNonces
      ensures Valid() && priced.Covers({}) && Aligned(stage, before)
      ensures Thinned() && IdleKept()
      ensures threshold <= level <= level0 && AtLevel(old(pending), pending, who, level)
      ensures total == Total(pending)
      ensures total > config.globalSlots ==> level == threshold
      ensures total <= config.globalSlots ==> level < level0 && total + |who| > config.globalSlots
    {
      ghost var p := pending;
      total, level := total0, level0;
      LevelIsSelf(p, who, level0);
      LastLength(p, who, level0);
      var last := who[|who| - 1];
      while total > config.globalSlots && |pending[last].items| > threshold
        invariant Valid() && priced.Covers({}) && Aligned(stage, before)
        invariant Thinned() && IdleKept()
        invariant threshold <= level <= level0 && AtLevel(p, pending, who, level)
        invariant HasLength(pending, last, level)
        invariant total == Total(pending)
        invariant total <= config.globalSlots ==> level < level0 && total + |who| > config.globalSlots
        decreases level
      {
        ghost var lower: nat := level - 1;
        NextLevel(who, p, level, lower, stage, before);
        level, total := lower, total - |who|;
      }
    }

    /** truncatePending: while the pool holds too many pending transactions, the longest lists of accounts
        that are not local are brought down together, never below the guaranteed slots. One level higher,
        each account that was cut would keep one transaction more, and that would be too many. */
    method TruncatePending(ghost stage: Stage, ghost before: State) returns (ghost level: nat)
      requires Valid() && priced.Covers({}) && Aligned(stage, before) && (stage == Any || stage == Trimming)
      requires config.accountSlots >= 1
      modifies this`pending, all, priced, pendingNonces
      ensures Valid() && priced.Covers({}) && Aligned(stage, before)
      ensures Thinned() && IdleKept()
      ensures Total(old(pending)) <= config.globalSlots ==> Now() == old(Now())
      ensures Total(old(pending)) > config.globalSlots ==>
        var spammers := Spammers(old(pending), locals, config.accountSlots);
        && config.accountSlots <= level
        && Levelled(old(pending), pending, spammers, level)
        && (Total(pending) > config.globalSlots ==> level == config.accountSlots)
        && Total(pending) + |CutBy(old(pending), spammers, level)| > config.globalSlots
    {
      level := config.accountSlots;
      var total := CountAll(pending);
      if total > config.globalSlots {
        level := TruncateOver(total, stage, before);
      }
    }

    /** truncatePending above the limit. */
    method TruncateOver(total0: nat, ghost stage: Stage, ghost before: State) returns (ghost level: nat)
      requires Valid() && priced.Covers({}) && Aligned(stage, before) && (stage == Any || stage == Trimming)
      requires config.accountSlots >= 1 && total0 == Total(pending) && total0 > config.globalSlots
      modifies this`pending, all, priced, pendingNonces
      ensures Valid() && priced.Covers({}) && Aligned(stage, before)
      ensures Thinned() && IdleKept()
      ensures var spammers := Spammers(old(pending), locals, config.accountSlots);
        && config.accountSlots <= level
        && Levelled(old(pending), pending, spammers, level)
        && (Total(pending) > config.globalSlots ==> level == config.accountSlots)
        && Total(pending) + |CutBy(old(pending), spammers, level)| > config.globalSlots
    {
      ghost var p := pending;
      ghost var spammers := Spammers(p, locals, config.accountSlots);
      FillStarts(p, locals, config.accountSlots, config.globalSlots, total0);
      var total, offenders;
      ghost var left;
      total, offenders, left, level := FillUp(total0, stage, before);
      if total > config.globalSlots && |offenders| > 0 {
        level := BringDown(offenders, total, p, spammers, level, stage, before);
      } else {
        FillResult(p, pending, spammers, left, offenders, level, config.accountSlots, config.globalSlots, total);
        level := if offenders == [] then config.accountSlots else level;
      }
    }

    /** The first phase: accounts join from the longest list down until the total fits or all have joined. */
    method FillUp(total0: nat, ghost stage: Stage, ghost before: State)
      returns (total: nat, offenders: seq<Addr>, ghost rest: set<Addr>, ghost level: nat)
      requires Valid() && priced.Covers({}) && Aligned(stage, before) && (stage == Any || stage == Trimming)
      requires var spammers := Spammers(pending, locals, config.accountSlots);
        FillState(pending, pending, spammers, spammers, [], config.accountSlots, config.accountSlots,
                  config.globalSlots, total0)
      modifies this`pending, all, priced, pendingNonces
      ensures Valid() && priced.Covers({}) && Aligned(stage, before)
      ensures Thinned() && IdleKept()
      ensures FillState(old(pending), pending, Spammers(old(pending), locals, config.accountSlots), rest, offenders,
                        level, config.accountSlots, config.globalSlots, total)
      ensures total <= config.globalSlots || rest == {}
    {
      ghost var p, spammers := pending, Spammers(pending, locals, config.accountSlots);
      var left := Spammers(pending, locals, config.accountSlots);
      total, offenders, level := total0, [], config.accountSlots;
      while total > config.globalSlots && left != {}
        invariant Valid() && priced.Covers({}) && Aligned(stage, before)
        invariant Thinned() && IdleKept()
        invariant FillState(p, pending, spammers, left, offenders, level, config.accountSlots, config.globalSlots,
                            total)
        decreases left
      {
        ghost var m, level0, was := pending, level, total;
        var offender;
        total, offender, level := FillOne(left, offenders, total, p, level, stage, before);
        FillSteps(p, m, pending, spammers, left, offenders, offender, level0, level, config.accountSlots,
                  config.globalSlots, was, total);
        left, offenders := left - {offender}, offenders + [offender];
      }
      rest := left;
    }

    /** The second phase: all offenders, at one level by now, go down together. */
    method BringDown(offenders: seq<Addr>, total0: nat, ghost p: Accounts, ghost spammers: set<Addr>, ghost level0: nat,
                     ghost stage: Stage, ghost before: State)
      returns (ghost level: nat)
      requires Valid() && priced.Covers({}) && Aligned(stage, before) && (stage == Any || stage == Trimming)
      requires offenders != [] && config.accountSlots >= 1
      requires total0 > config.globalSlots
      requires FillState(p, pending, spammers, {}, offenders, level0, config.accountSlots, config.globalSlots, total0)
      modifies this`pending, all, priced, pendingNonces
      ensures Valid() && priced.Covers({}) && Aligned(stage, before)
      ensures Thinned() && IdleKept()
      ensures config.accountSlots <= level && Levelled(p, pending, spammers, level)
      ensures Total(pending) > config.globalSlots ==> level == config.accountSlots
      ensures Total(pending) + |CutBy(p, spammers, level)| > config.globalSlots
    {
      assert AddrSet(offenders) + {} == AddrSet(offenders) == spammers;
      FilledLevel(p, pending, {}, offenders, level0, config.accountSlots);
      ghost var m := pending;
      var total;
      total, level := Equalize(offenders, config.accountSlots, total0, level0, stage, before);
      FillDown(p, m, pending, offenders, level0, level, config.accountSlots);
      if total <= config.globalSlots {
        AllCut(p, offenders, spammers, level);
      }
    }

    /** One turn of the filling: the longest list left joins, the others are levelled to its length. */
    method FillOne(left: set<Addr>, offenders: seq<Addr>, total0: nat, ghost p: Accounts, ghost level0: nat,
                   ghost stage: Stage, ghost before: State)
      returns (total: nat, offender: Addr, ghost level: nat)
      requires Valid() && priced.Covers({}) && Aligned(stage, before) && (stage == Any || stage == Trimming)
      requires total0 == Total(pending) && total0 > config.globalSlots && left != {}
      requires Filling(p, pending, left, offenders, level0, config.accountSlots, true)
      requires offenders == [] ==> pending == p
      modifies this`pending, all, priced, pendingNonces
      ensures Valid() && priced.Covers({}) && Aligned(stage, before)
      ensures Thinned() && IdleKept()
      ensures offender in left
      ensures Filling(p, pending, left - {offender}, offenders + [offender], level, config.accountSlots,
                      total > config.globalSlots)
      ensures total == Total(pending)
      ensures total + |CutBy(p, AddrSet(offenders + [offender]), level)| > config.globalSlots
    {
      ghost var m := pending;
      assert left <= pending.Keys by {
        forall a | a in left
          ensures a in pending
        {
          assert LevelledAt(p, pending, AddrSet(offenders), level0, a);
        }
      }
      LongestExists(pending, left);
      offender :| offender in left && forall a :: a in left ==> |pending[a].items| <= |pending[offender].items|;
      forall a | a in left
        ensures |p[a].items| <= |p[offender].items|
      {
        FillingLevel(p, m, left, offenders, level0, config.accountSlots, a);
        FillingLevel(p, m, left, offenders, level0, config.accountSlots, offender);
      }
      FillingLevel(p, m, left, offenders, level0, config.accountSlots, offender);
      total := total0;
      if |offenders| == 0 {
        FillFirst(p, left, offender, config.accountSlots, level0);
        level := |p[offender].items|;
        assert offenders + [offender] == [offender];
      } else {
        var threshold := |pending[offender].items|;
        total, level := Equalize(offenders, threshold, total, level0, stage, before);
        FillNext(p, m, pending, left, offenders, offender, level0, level, config.accountSlots,
                 total > config.globalSlots);
        if total <= config.globalSlots {
          AllCut(p, offenders, AddrSet(offenders + [offender]), level);
        }
      }
    }

    /** Removes listed transactions of one queue, one by one. */
    method RemoveFromQueue(a: Addr, txs: seq<Tx>, ghost stage: Stage, ghost before: State)
      requires Valid() && priced.Covers({}) && Aligned(stage, before)
      requires a in queue && DistinctIn(txs) && forall j :: 0 <= j < |txs| ==> Holds(queue[a].items, txs[j])
      modifies this`pending, this`queue, this`beats, all, priced, pendingNonces
      ensures Valid() && priced.Covers({}) && Aligned(stage, before)
      ensures Thinned() && IdleKept()
      ensures pending == old(pending) && queue == With(old(queue), a, Without(old(queue)[a], Nonces(txs)))
    {
      ghost var q, l := queue, queue[a];
      ListsAreOk(pending, queue, all.Txs(), a);
      NoneRemoved(q, a, txs);
      for i := 0 to |txs|
        invariant Valid() && priced.Covers({}) && Aligned(stage, before)
        invariant Thinned() && IdleKept()
        invariant pending == old(pending) && queue == With(q, a, Without(l, Nonces(txs[..i])))
      {
        QueueStep(q, a, l, txs, i);
        assert txs[i].from == a;
        QueuedIsPooled(pending, queue, all.Txs(), a, txs[i]);
        label Before:
        RemoveTx(txs[i], true, {}, stage, before);
        BackedIsIdle@Before();
      }
      assert txs[..|txs|] == txs;
    }

    /** The accounts that are not local and have queued transactions, by heartbeat. */
    method Heartbeats() returns (s: seq<Beat>)
      ensures ByHeartbeat(s, queue.Keys - locals, beats)
    {
      s := [];
      var todo := queue.Keys - locals;
      while todo != {}
        invariant todo <= queue.Keys - locals
        invariant multiset(s) == multiset(BeatSet(queue.Keys - locals - todo, beats))
        decreases todo
      {
        var a :| a in todo;
        BeatAdded(s, queue.Keys - locals, todo, a, beats);
        s, todo := s + [Beat(a, BeatOf(beats, a))], todo - {a};
      }
      assert queue.Keys - locals - {} == queue.Keys - locals;
      s := Heaps.Sort(s, BeatLe);
    }

    /** Sheds one queue: all of it when it is no larger than the excess, else its highest nonces. */
    method ShedQueue(a: Addr, drop: nat, ghost stage: Stage, ghost before: State)
      requires Valid() && priced.Covers({}) && Aligned(stage, before) && a in queue
      modifies this`pending, this`queue, this`beats, all, priced, pendingNonces
      ensures Valid() && priced.Covers({}) && Aligned(stage, before) && pending == old(pending)
      ensures Thinned() && IdleKept()
      ensures queue == ShedOff(old(queue), a, drop)
    {
      ghost var q := queue;
      assert Filed(queue[a].items) by {
        ListsAreOk(pending, queue, all.Txs(), a);
      }
      var txs := ChooseQueued(queue[a].items, drop);
      RemoveFromQueue(a, txs, stage, before);
      ShedIs(q, a, txs, drop);
    }

    /** truncateQueue: above the limit, the queues of the most recently active accounts that are not local go,
        the last of them only as far as needed. */
    method TruncateQueue(ghost stage: Stage, ghost before: State)
      returns (ghost gone: set<Addr>, ghost cut: Option<Addr>, ghost keep: nat)
      requires Valid() && priced.Covers({}) && Aligned(stage, before)
      modifies this`pending, this`queue, this`beats, all, priced, pendingNonces
      ensures Valid() && priced.Covers({}) && Aligned(stage, before) && pending == old(pending)
      ensures Thinned() && IdleKept()
      ensures Total(old(queue)) <= config.globalQueue ==> Now() == old(Now()) && gone == {} && cut == None
      ensures Total(old(queue)) > config.globalQueue ==>
        var kept := Total(Only(old(queue), locals));
        && Total(queue) == (if kept < config.globalQueue then config.globalQueue else kept)
        && Shed(old(queue), queue, gone, cut, keep)
        && MostRecent(Affected(gone, cut), old(queue).Keys - locals, old(beats))
    {
      gone, cut, keep := {}, None, 0;
      var queued := CountAll(queue);
      if queued <= config.globalQueue {
        return;
      }
      ghost var q, b := queue, beats;
      var addresses := Heartbeats();
      var drop: nat := queued - config.globalQueue;
      SheddingStarts(q, q.Keys - locals, b, addresses, config.globalQueue);
      while drop > 0 && |addresses| > 0
        invariant Valid() && priced.Covers({}) && Aligned(stage, before) && pending == old(pending)
        invariant Thinned() && IdleKept()
        invariant Shedding(q, queue, gone, cut, keep, q.Keys - locals, b, addresses, drop, config.globalQueue)
        invariant drop > 0 ==> cut == None && keep == 0
        decreases |addresses|
      {
        drop, gone, cut, keep := ShedNext(addresses, drop, q, gone, q.Keys - locals, b, stage, before);
        addresses := addresses[..|addresses| - 1];
      }
      SheddingEnds(q, queue, gone, cut, keep, locals, b, addresses, drop, config.globalQueue);
    }

    /** One turn of the shedding loop. */
    method ShedNext(addresses: seq<Beat>, drop0: nat, ghost q: Accounts, ghost gone0: set<Addr>, ghost who: set<Addr>,
                    ghost b: map<Addr, nat>, ghost stage: Stage, ghost before: State)
      returns (drop: nat, ghost gone: set<Addr>, ghost cut: Option<Addr>, ghost keep: nat)
      requires Valid() && priced.Covers({}) && Aligned(stage, before) && drop0 > 0 && addresses != []
      requires Shedding(q, queue, gone0, None, 0, who, b, addresses, drop0, config.globalQueue)
      modifies this`pending, this`queue, this`beats, all, priced, pendingNonces
      ensures Valid() && priced.Covers({}) && Aligned(stage, before) && pending == old(pending)
      ensures Thinned() && IdleKept()
      ensures Shedding(q, queue, gone, cut, keep, who, b, addresses[..|addresses| - 1], drop, config.globalQueue)
      ensures drop > 0 ==> cut == None && keep == 0
    {
      var a := addresses[|addresses| - 1].address;
      assert a in queue by {
        NextToShed(q, queue, gone0, who, b, addresses, drop0, config.globalQueue);
      }
      gone, cut, keep := ShedTurn(q, queue, gone0, who, b, addresses, drop0, config.globalQueue, a);
      var size := |queue[a].items|;
      drop := if size <= drop0 then drop0 - size else 0;
      ShedQueue(a, drop0, stage, before);
    }

    /** The last step of a run: the virtual nonce of every account with pending transactions is one past the last. */
    method UpdateNonces(ghost lined: bool, ghost before: State)
      requires Valid() && (lined ==> Aligned(Trimming, before))
      modifies pendingNonces
      ensures forall a ::
        pendingNonces.At(a) == (if a in pending && pending[a].items.Keys != {} then Greatest(pending[a].items.Keys) + 1
                                else old(pendingNonces.At(a)))
      ensures lined ==> Aligned(Calm, before)
    {
      var todo := pending.Keys;
      while todo != {}
        invariant todo <= pending.Keys
        invariant forall a ::
          pendingNonces.At(a) == (if a in pending && a !in todo && pending[a].items.Keys != {}
                                  then Greatest(pending[a].items.Keys) + 1 else old(pendingNonces.At(a)))
        decreases todo
      {
        var a :| a in todo;
        ListsAreOk(pending, queue, all.Txs(), a);
        assert pending[a].items.Keys != {};
        pendingNonces.Set(a, Greatest(pending[a].items.Keys) + 1);
        todo := todo - {a};
      }
      if lined {
        forall a
          ensures AlignedAt(Calm, before, a)
        {
          assert old(AlignedAt(Trimming, before, a));
          if ItemsOf(pending, a).Keys != {} {
            TrimmedSettles(ItemsOf(pending, a), ItemsOf(queue, a), old(pendingNonces.At(a)), MeansOf(a),
                           Greatest(ItemsOf(pending, a).Keys));
          } else {
            assert ItemsOf(pending, a) == map[];
          }
        }
      }
    }

    /** add, as one turn of a batch. */
    method AddOne(tx: Tx, local: bool, gasPriceOn: bool, checks: Checks, ghost stage: Stage, ghost before: State)
      returns (r: Outcome, ghost t: Turn)
      requires Valid() && priced.Covers({}) && Aligned(stage, before) && tx.size > 0
      modifies this`pending, this`queue, this`beats, this`locals, all, priced, pendingNonces
      ensures Valid() && priced.Covers({}) && Aligned(stage, before)
      ensures TurnAs(old(Now()), t, tx, local, old(RulesNow(gasPriceOn)), checks, config)
      ensures r == t.outcome && t.after == Now() && t.locals == locals
      ensures r == Accepted(false) && !local && |old(all.Txs())| + NumSlots(tx) <= Limit() ==>
        HeapGrows(tx, local || tx.from in old(locals))
    {
      ghost var dropped, outbid;
      r, dropped, outbid := Add(tx, local, gasPriceOn, checks, stage, before);
      t := Turn(r, dropped, outbid, Now(), locals);
      if tx !in old(all.Txs()) && old(Validate(tx, local || tx.from in locals, RulesNow(gasPriceOn), checks)).None? {
        RoomIs(tx, local || tx.from in old(locals), gasPriceOn, NoRoom(r), dropped);
      }
    }

    /** The same as `RoomMade`, in terms of the views. */
    twostate lemma RoomIs(new tx: Tx, new isLocal: bool, new gasPriceOn: bool, new err: Option<Error>,
                          new dropped: set<Tx>)
      requires old(Valid() && priced.Covers({})) && RoomMade(tx, isLocal, gasPriceOn, err, dropped)
      ensures RoomFor(old(Now()), err, dropped, tx, isLocal, gasPriceOn, LimitOf(config))
    {
      CoveredSlots(old(priced.remotes), old(all.remotes));
    }

    /** The next turn of a batch. */
    method AddNext(txs: seq<Tx>, i: nat, local: bool, gasPriceOn: bool, checks: Tx -> Checks, ghost stage: Stage,
                   ghost before: State, ghost v: View, ghost rules: Rules, ghost turns0: seq<Turn>)
      returns (r: Outcome, ghost turns: seq<Turn>)
      requires Valid() && priced.Covers({}) && Aligned(stage, before)
      requires i < |txs| && txs[i].size > 0 && Turns(v, turns0, txs[..i], local, rules, checks, config)
      requires ViewAfter(v, turns0) == Now() && RulesAfter(rules, turns0) == RulesNow(gasPriceOn)
      modifies this`pending, this`queue, this`beats, this`locals, all, priced, pendingNonces
      ensures Valid() && priced.Covers({}) && Aligned(stage, before)
      ensures Turns(v, turns, txs[..i + 1], local, rules, checks, config)
      ensures OutcomesOf(turns) == OutcomesOf(turns0) + [r]
      ensures ViewAfter(v, turns) == Now() && RulesAfter(rules, turns) == RulesNow(gasPriceOn)
    {
      ghost var u, now := Now(), RulesNow(gasPriceOn);
      ghost var t;
      r, t := AddOne(txs[i], local, gasPriceOn, checks(txs[i]), stage, before);
      OneMoreTurn(v, turns0, txs, i, u, t, local, rules, now, checks, config);
      turns := turns0 + [t];
    }

    /** addTxsLocked: adds one by one; the accounts that have something new in their queue are dirty. */
    method AddAllTxs(txs: seq<Tx>, local: bool, gasPriceOn: bool, checks: Tx -> Checks, ghost stage: Stage,
                     ghost before: State)
      returns (outcomes: seq<Outcome>, dirty: set<Addr>, ghost turns: seq<Turn>)
      requires Valid() && priced.Covers({}) && Aligned(stage, before)
      requires forall i :: 0 <= i < |txs| ==> txs[i].size > 0
      modifies this`pending, this`queue, this`beats, this`locals, all, priced, pendingNonces
      ensures Valid() && priced.Covers({}) && Aligned(stage, before)
      ensures Turns(old(Now()), turns, txs, local, old(RulesNow(gasPriceOn)), checks, config)
      ensures Now() == ViewAfter(old(Now()), turns)
      ensures RulesNow(gasPriceOn) == RulesAfter(old(RulesNow(gasPriceOn)), turns)
      ensures |outcomes| == |txs| && outcomes == OutcomesOf(turns) && dirty == DirtyOf(txs, outcomes)
    {
      outcomes, dirty, turns := [], {}, [];
      ghost var v, rules := Now(), RulesNow(gasPriceOn);
      for i := 0 to |txs|
        invariant Valid() && priced.Covers({}) && Aligned(stage, before)
        invariant Turns(v, turns, txs[..i], local, rules, checks, config)
        invariant ViewAfter(v, turns) == Now() && RulesAfter(rules, turns) == RulesNow(gasPriceOn)
        invariant |outcomes| == i && outcomes == OutcomesOf(turns) && dirty == DirtyOf(txs[..i], outcomes)
      {
        var r;
        r, turns := AddNext(txs, i, local, gasPriceOn, checks, stage, before, v, rules, turns);
        OneMoreOutcome(txs, outcomes, i, r);
        outcomes := outcomes + [r];
        if r == Accepted(false) {
          dirty := dirty + {txs[i].from};
        }
      }
      assert txs[..|txs|] == txs;
    }

    /** What promotion begins with after a change to `head`: the views `restart`, with the virtual nonces starting over,
        as far as the turns of reinjection have changed them. */
    ghost predicate StartsFrom(restart: View, was: State, unbroken: bool, head: Head, reinject: seq<Tx>, rules: Rules,
                               checks: Tx -> Checks, start: View, turns: seq<Turn>)
      requires head.state.Some?
    {
      && Turns(restart, turns, reinject, false, rules, checks, config) && start == ViewAfter(restart, turns)
      && Backed(restart, restart) && restart.remotes <= restart.txs
      && Consistent(restart.pending, restart.queue, restart.txs) && Consistent(start.pending, start.queue, start.txs)
      && (unbroken ==> ShiftedFrom(was, head.state.value, head.maxGas, start))
    }

    /** In consequence a virtual nonce has fallen only to one that reinjection has pushed out of the pending list,
        nothing has entered but what was reinjected, and with room for all of that the valid ones have been added one
        by one. */
    lemma StartMeans(restart: View, was: State, unbroken: bool, head: Head, reinject: seq<Tx>, rules: Rules,
                     checks: Tx -> Checks, start: View, turns: seq<Turn>)
      requires head.state.Some? && StartsFrom(restart, was, unbroken, head, reinject, rules, checks, start, turns)
      ensures Backed(restart, start)
      ensures SplitAs(restart.txs, restart.remotes, AsSet(reinject), rules.locals, start.txs, start.remotes)
      ensures reinject == [] ==> start == restart
      ensures HasRoom(|restart.txs|, reinject, config) ==>
        (start.pending, start.queue) ==
          TakenAll(restart.pending, restart.queue, reinject, rules, checks, config.priceBump)
    {
      TurnsBack(restart, turns, reinject, false, rules, checks, config);
      TurnsSplit(restart, turns, reinject, rules, checks, config);
      if HasRoom(|restart.txs|, reinject, config) {
        TurnsTake(restart, turns, reinject, rules, checks, config);
      }
    }

    /** reset: moves to the state of a new head and reinjects the transactions the reorganisation dropped.
        Nothing happens when that state is missing. */
    method Reset(head: Head, reinject: seq<Tx>, gasPriceOn: bool, checks: Tx -> Checks, ghost calm: bool)
      returns (ghost turns: seq<Turn>)
      requires Valid() && priced.Covers({})
      requires forall i :: 0 <= i < |reinject| ==> reinject[i].size > 0
      requires calm ==> Aligned(Calm, currentState)
      requires calm && head.state.Some? ==> forall a :: currentState.Nonce(a) <= head.state.value.Nonce(a)
      modifies this`pending, this`queue, this`beats, this`locals, this`currentState, this`currentMaxGas,
        this`pendingNonces, all, priced
      ensures Valid() && priced.Covers({}) && locals == old(locals)
      ensures calm ==> Aligned(if head.state.Some? then Moving else Calm, old(currentState))
      ensures SplitAs(old(all.Txs()), old(all.remotes), AsSet(reinject), locals, all.Txs(), all.remotes)
      ensures if head.state.None? then
          && Now() == old(Now()) && beats == old(beats) && pendingNonces == old(pendingNonces)
          && currentState == old(currentState) && currentMaxGas == old(currentMaxGas)
        else
          && currentState == head.state.value && currentMaxGas == head.maxGas && fresh(pendingNonces)
          && StartsFrom(old(Restart(head.state.value)), old(currentState), old(AllUnbroken()), head, reinject,
                        old(RulesAt(head, gasPriceOn)), checks, Now(), turns)
    {
      turns := [];
      if head.state.None? {
        NoneSplit(Now(), AsSet(reinject), locals);
        return;
      }
      turns := ResetTo(head, reinject, gasPriceOn, checks, calm);
    }

    method ResetTo(head: Head, reinject: seq<Tx>, gasPriceOn: bool, checks: Tx -> Checks, ghost calm: bool)
      returns (ghost turns: seq<Turn>)
      requires Valid() && priced.Covers({}) && head.state.Some?
      requires forall i :: 0 <= i < |reinject| ==> reinject[i].size > 0
      requires calm ==> Aligned(Calm, currentState) && forall a :: currentState.Nonce(a) <= head.state.value.Nonce(a)
      modifies this`pending, this`queue, this`beats, this`locals, this`currentState, this`currentMaxGas,
        this`pendingNonces, all, priced
      ensures Valid() && priced.Covers({}) && locals == old(locals)
      ensures calm ==> Aligned(Moving, old(currentState))
      ensures SplitAs(old(all.Txs()), old(all.remotes), AsSet(reinject), locals, all.Txs(), all.remotes)
      ensures currentState == head.state.value && currentMaxGas == head.maxGas && fresh(pendingNonces)
      ensures StartsFrom(old(Restart(head.state.value)), old(currentState), old(AllUnbroken()), head, reinject,
                         old(RulesAt(head, gasPriceOn)), checks, Now(), turns)
    {
      ghost var was, unbroken := currentState, AllUnbroken();
      ghost var restart, rules := Restart(head.state.value), RulesAt(head, gasPriceOn);
      if calm {
        CalmIsUnbroken();
      }
      ghost var stage := if calm then Moving else if unbroken then Shifting else Any;
      Rebase(head.state.value, head.maxGas, stage);
      NoneLeft();
      turns := Reinject(reinject, gasPriceOn, checks, stage, was, restart, rules);
      if unbroken {
        AlignedIsShifted(stage, was);
      }
    }

    /** addTxsLocked for what a reorganisation dropped. */
    method Reinject(reinject: seq<Tx>, gasPriceOn: bool, checks: Tx -> Checks, ghost stage: Stage, ghost was: State,
                    ghost restart: View, ghost rules: Rules)
      returns (ghost turns: seq<Turn>)
      requires Valid() && priced.Covers({}) && Aligned(stage, was)
      requires Now() == restart && RulesNow(gasPriceOn) == rules
      requires forall i :: 0 <= i < |reinject| ==> reinject[i].size > 0
      modifies this`pending, this`queue, this`beats, this`locals, all, priced, pendingNonces
      ensures Valid() && priced.Covers({}) && Aligned(stage, was) && locals == old(locals)
      ensures Turns(restart, turns, reinject, false, rules, checks, config) && Now() == ViewAfter(restart, turns)
      ensures SplitAs(restart.txs, restart.remotes, AsSet(reinject), locals, all.Txs(), all.remotes)
    {
      var outcomes, dirty;
      outcomes, dirty, turns := AddAllTxs(reinject, false, gasPriceOn, checks, stage, was);
      TurnsSplit(restart, turns, reinject, rules, checks, config);
    }

    /** The rules under a new head. */
    ghost function RulesAt(head: Head, gasPriceOn: bool): Rules
      requires head.state.Some?
      reads this`gasPrice, this`locals
    {
      Rules(head.state.value, head.maxGas, gasPrice, config.sizeLimit, locals, gasPriceOn)
    }

    /** No account has a gap in front of or between its pending nonces, or queued ones below them. */
    ghost predicate AllUnbroken()
      reads this`pending, this`queue, this`currentState
    {
      forall a :: UnbrokenAt(a)
    }

    ghost predicate UnbrokenAt(a: Addr)
      reads this`pending, this`queue, this`currentState
    {
      Unbroken(ItemsOf(pending, a), ItemsOf(queue, a), currentState.Nonce(a))
    }

    lemma CalmIsUnbroken()
      requires Aligned(Calm, currentState)
      ensures AllUnbroken()
    {
      forall a
        ensures UnbrokenAt(a)
      {
        assert AlignedAt(Calm, currentState, a);
      }
    }

    lemma AlignedIsShifted(stage: Stage, was: State)
      requires Aligned(stage, was) && (stage == Moving || stage == Shifting)
      ensures ShiftedFrom(was, currentState, currentMaxGas, Now())
    {
      forall a
        ensures ShiftedFromAt(was, currentState, currentMaxGas, Now(), a)
      {
        assert AlignedAt(stage, was, a);
      }
    }

    /** Moves to a new state; the virtual nonces start over. */
    method Rebase(state: State, maxGas: nat, ghost stage: Stage)
      requires stage == Any || stage == Moving || stage == Shifting
      requires stage == Moving ==> Aligned(Calm, currentState) && forall a :: currentState.Nonce(a) <= state.Nonce(a)
      requires stage == Shifting ==> AllUnbroken()
      modifies this`currentState, this`currentMaxGas, this`pendingNonces
      ensures currentState == state && currentMaxGas == maxGas && fresh(pendingNonces)
      ensures Now() == old(Restart(state))
      ensures Aligned(stage, old(currentState))
    {
      ghost var was := currentState;
      currentState, currentMaxGas := state, maxGas;
      pendingNonces := new TxNoncer(state);
      forall a
        ensures AlignedAt(stage, was, a)
      {
        if stage == Moving {
          assert old(AlignedAt(Calm, currentState, a));
          SettledRebases(ItemsOf(pending, a), ItemsOf(queue, a), old(pendingNonces.At(a)), old(MeansOf(a)), MeansOf(a));
        } else if stage == Shifting {
          assert old(UnbrokenAt(a));
        }
      }
    }

    /** Above its limit, a pool is left with local queues alone, and with no more than the guaranteed slots
        for any account that is not local. */
    ghost predicate WithinLimits()
      reads this`pending, this`queue, this`locals
    {
      && (Total(pending) <= config.globalSlots || Spammers(pending, locals, config.accountSlots) == {})
      && (Total(queue) <= config.globalQueue || Total(queue) == Total(Only(queue, locals)))
    }

    ghost predicate Fits(p: Accounts, q: Accounts) {
      Total(p) <= config.globalSlots && Total(q) <= config.globalQueue
    }

    /** How many pending transactions an account may keep. */
    ghost function LevelOf(p: Accounts, c: Cuts, a: Addr): nat
      reads this`locals
    {
      if Total(p) > config.globalSlots && a in Spammers(p, locals, config.accountSlots) then c.level
      else |ItemsOf(p, a)|
    }

    /** What the two truncations have left of the lists `p` and `q`. */
    ghost predicate TruncatedAs(p: Accounts, q: Accounts, c: Cuts)
      reads this`pending, this`queue, this`locals
    {
      && (if Total(p) <= config.globalSlots then pending == p else
            var spammers := Spammers(p, locals, config.accountSlots);
            && Levelled(p, pending, spammers, c.level) && config.accountSlots <= c.level
            && (Total(pending) > config.globalSlots ==> c.level == config.accountSlots)
            && Total(pending) + |CutBy(p, spammers, c.level)| > config.globalSlots)
      && (if Total(q) <= config.globalQueue then queue == q && c.gone == {} && c.cut == None else
            var kept := Total(Only(q, locals));
            && Shed(q, queue, c.gone, c.cut, c.keep)
            && Total(queue) == if kept < config.globalQueue then config.globalQueue else kept)
    }

    /** The same, account by account. */
    lemma TruncatedLists(p: Accounts, q: Accounts, c: Cuts, a: Addr)
      requires TruncatedAs(p, q, c)
      ensures ItemsOf(pending, a) == Lowest(ItemsOf(p, a), LevelOf(p, c, a))
      ensures ItemsOf(queue, a) == KeptOf(ItemsOf(q, a), c, a)
      ensures LevelOf(p, c, a) < |ItemsOf(p, a)| ==> config.accountSlots <= LevelOf(p, c, a)
    {
      TruncatedQueue(p, q, c, a);
      if Total(p) > config.globalSlots {
        assert LevelledAt(p, pending, Spammers(p, locals, config.accountSlots), c.level, a);
      }
    }

    lemma TruncatedQueue(p: Accounts, q: Accounts, c: Cuts, a: Addr)
      requires TruncatedAs(p, q, c)
      ensures ItemsOf(queue, a) == KeptOf(ItemsOf(q, a), c, a)
    {
    }

    /** truncatePending and truncateQueue. */
    method Truncate(ghost stage: Stage, ghost before: State) returns (ghost c: Cuts)
      requires Valid() && priced.Covers({}) && Aligned(stage, before) && (stage == Any || stage == Trimming)
      requires config.accountSlots >= 1
      modifies this`pending, this`queue, this`beats, all, priced, pendingNonces
      ensures Valid() && priced.Covers({}) && Aligned(stage, before) && WithinLimits()
      ensures Thinned() && IdleKept()
      ensures TruncatedAs(old(pending), old(queue), c)
      ensures Fits(old(pending), old(queue)) ==> Now() == old(Now())
      ensures stage == Trimming ==> forall a :: old(FreeAt(a)) ==> FreeAt(a)
    {
      ghost var p, q := pending, queue;
      ghost var level := TruncatePending(stage, before);
      ghost var gone, cut, keep;
      gone, cut, keep := TruncateQueue(stage, before);
      c := Cuts(level, gone, cut, keep);
      assert WithinLimits() by {
        if Total(p) > config.globalSlots {
          NoSpammers(p, pending, locals, config.accountSlots, level);
        }
        if Total(q) > config.globalQueue {
          LocalsStay(q, queue, gone, cut, keep, locals);
        }
      }
      if stage == Trimming {
        TruncationFrees(before, Spammers(p, locals, config.accountSlots), level, gone, cut, keep);
      }
    }

    /** No account's next nonce gets stuck in its queue by truncation. */
    twostate lemma TruncationFrees(new before: State, new who: set<Addr>, new level: nat, new gone: set<Addr>,
                                   new cut: Option<Addr>, new keep: nat)
      requires currentState == old(currentState) && currentMaxGas == old(currentMaxGas)
      requires old(Valid()) && old(Aligned(Trimming, before))
      requires pending == old(pending) || Levelled(old(pending), pending, who, level)
      requires queue == old(queue) || Shed(old(queue), queue, gone, cut, keep)
      ensures forall a :: old(FreeAt(a)) ==> FreeAt(a)
    {
      forall a | old(FreeAt(a))
        ensures FreeAt(a)
      {
        assert old(AlignedAt(Trimming, before, a));
        TruncatedFree(old(pending), old(queue), old(all.Txs()), pending, queue, who, level, gone, cut, keep, a,
                      old(pendingNonces.At(a)), MeansOf(a));
      }
    }

    /** Between `v` and `w` the accounts in `who` were promoted and the others left alone. */
    ghost predicate PromotedFrom(v: View, w: View, gasPriceOn: bool, who: set<Addr>)
      reads this`currentState, this`currentMaxGas, this`locals
    {
      forall a :: PromotedFromAt(v, w, gasPriceOn, who, a)
    }

    ghost predicate PromotedFromAt(v: View, w: View, gasPriceOn: bool, who: set<Addr>, a: Addr)
      reads this`currentState, this`currentMaxGas, this`locals
    {
      && a in v.virtual && a in w.virtual
      && PromotingAs(v.pending, v.queue, v.virtual[a], w.pending, w.queue, w.virtual[a], MeansOf(a), gasPriceOn,
                     CapOf(a), who, a)
    }

    lemma SoFarIsFrom(v: View, gasPriceOn: bool, who: set<Addr>)
      requires PromotedSoFar(v.pending, v.queue, v.virtual, gasPriceOn, who)
      ensures PromotedFrom(v, Now(), gasPriceOn, who)
    {
      forall a
        ensures PromotedFromAt(v, Now(), gasPriceOn, who, a)
      {
        assert PromotedSoFarAt(v.pending, v.queue, v.virtual, gasPriceOn, who, a);
      }
    }

    /** Between `v` and `w` every account was promoted and demoted. */
    ghost predicate ResetFrom(v: View, w: View, gasPriceOn: bool)
      reads this`currentState, this`currentMaxGas, this`locals
    {
      forall a :: ResetFromAt(v, w, gasPriceOn, a)
    }

    ghost predicate ResetFromAt(v: View, w: View, gasPriceOn: bool, a: Addr)
      reads this`currentState, this`currentMaxGas, this`locals
    {
      a in w.virtual && ResetAs(v, w.pending, w.queue, w.virtual[a], MeansOf(a), gasPriceOn, CapOf(a), a)
    }

    /** Demotion completes what promotion began. */
    twostate lemma PromotedThenDemoted(new v: View, new txs: set<Tx>, new gasPriceOn: bool)
      requires currentState == old(currentState) && currentMaxGas == old(currentMaxGas) && locals == old(locals)
      requires pendingNonces == old(pendingNonces) && Now().virtual == old(Now().virtual)
      requires Consistent(v.pending, v.queue, txs) && old(Valid())
      requires old(PromotedFrom(v, Now(), gasPriceOn, v.queue.Keys))
      requires DemotedSoFar(old(pending), old(queue), {})
      ensures ResetFrom(v, Now(), gasPriceOn)
    {
      forall a
        ensures ResetFromAt(v, Now(), gasPriceOn, a)
      {
        assert old(PromotedFromAt(v, Now(), gasPriceOn, v.queue.Keys, a));
        assert DemotingAs(old(pending), old(queue), pending, queue, currentState, currentMaxGas, {}, a);
        ResetIs(v, txs, old(pending), old(queue), old(all.Txs()), old(Now().virtual[a]), pending, queue, MeansOf(a),
                gasPriceOn, CapOf(a), a);
      }
    }

    /** A run that only promotes the accounts with new transactions. */
    method PromoteDirty(dirty: seq<Addr>, gasPriceOn: bool, ghost calm: bool)
      requires Valid() && priced.Covers({})
      requires calm ==> gasPriceOn && Aligned(Calm, currentState)
      modifies this`pending, this`queue, this`beats, all, priced, pendingNonces
      ensures Valid() && priced.Covers({})
      ensures Thinned()
      ensures calm ==> Aligned(Trimming, currentState)
      ensures calm ==> forall a :: a in dirty && !old(StrandedAt(a)) ==> FreeAt(a)
      ensures DistinctAddrs(dirty) ==> PromotedFrom(old(Now()), Now(), gasPriceOn, AddrSet(dirty))
    {
      ghost var v := Now();
      ghost var stage := if calm then Calm else Any;
      ghost var done := PromoteExecutables(dirty, gasPriceOn, stage, currentState);
      if DistinctAddrs(dirty) {
        SoFarIsFrom(v, gasPriceOn, AddrSet(dirty));
      }
      if calm {
        forall a
          ensures AlignedAt(Trimming, currentState, a)
        {
          assert PromotingAt(Calm, currentState, done, a);
        }
        ghost var fit := set a | a in dirty && !old(StrandedAt(a));
        forall a | a in fit
          ensures FreeAt(a)
        {
          assert FreeingAt(fit, AddrSet(dirty), a);
        }
      }
    }

    /** Promotes every queue. */
    method PromoteEvery(gasPriceOn: bool, ghost stage: Stage, ghost before: State)
      requires Valid() && priced.Covers({}) && Aligned(stage, before) && Promotes(stage)
      requires stage != Any ==> gasPriceOn
      modifies this`pending, this`queue, this`beats, all, priced, pendingNonces
      ensures Valid() && priced.Covers({})
      ensures Thinned()
      ensures stage != Any ==> forall a :: AdvancedAt(a)
      ensures PromotedFrom(old(Now()), Now(), gasPriceOn, old(queue).Keys)
    {
      var accounts := ListKeys(queue);
      ghost var v := Now();
      ghost var done := PromoteExecutables(accounts, gasPriceOn, stage, before);
      assert AddrSet(accounts) == v.queue.Keys;
      SoFarIsFrom(v, gasPriceOn, v.queue.Keys);
      if stage != Any {
        forall a
          ensures AdvancedAt(a)
        {
          assert PromotingAt(stage, before, done, a);
          if stage == Calm {
            SettledIsAdvanced(ItemsOf(pending, a), ItemsOf(queue, a), pendingNonces.At(a), MeansOf(a));
          } else if a !in done {
            assert a !in queue;
            IdleRebasedIsAdvanced(ItemsOf(pending, a), pendingNonces.At(a), MeansOf(a), before.Nonce(a));
          }
        }
      }
    }

    /** A run that follows a head change: promotes every queue, then demotes. */
    method PromoteAndDemote(gasPriceOn: bool, ghost stage: Stage, ghost before: State)
      requires Valid() && priced.Covers({}) && Aligned(stage, before) && Promotes(stage)
      requires stage != Any ==> gasPriceOn
      modifies this`pending, this`queue, this`beats, all, priced, pendingNonces
      ensures Valid() && priced.Covers({})
      ensures Thinned()
      ensures stage != Any ==> Aligned(Trimming, currentState)
      ensures ResetFrom(old(Now()), Now(), gasPriceOn)
    {
      ghost var v, txs := Now(), all.Txs();
      PromoteEvery(gasPriceOn, stage, before);
      label Promoted:
      DemoteUnexecutables(stage != Any);
      assert Now().virtual == old@Promoted(Now().virtual);
      PromotedThenDemoted@Promoted(v, txs, gasPriceOn);
      if stage != Any {
        forall a
          ensures AlignedAt(Trimming, currentState, a)
        {
          assert TrimmedAt(a);
        }
      }
    }

    /** The first half of a run: follows a head change if there is one, otherwise promotes the accounts with new
        transactions. `start` is what promotion began with. */
    method Regroup(reset: Option<Head>, reinject: seq<Tx>, dirty: seq<Addr>, gasPriceOn: bool, checks: Tx -> Checks,
                   ghost calm: bool)
      returns (ghost start: View, ghost mid: View, ghost turns: seq<Turn>)
      requires Valid() && priced.Covers({})
      requires forall i :: 0 <= i < |reinject| ==> reinject[i].size > 0
      requires calm ==> gasPriceOn && Aligned(Calm, currentState)
      requires calm && reset.Some? && reset.value.state.Some? ==>
        forall a :: currentState.Nonce(a) <= reset.value.state.value.Nonce(a)
      modifies this`pending, this`queue, this`beats, this`locals, this`currentState, this`currentMaxGas,
        this`pendingNonces, all, priced, pendingNonces
      ensures Valid() && priced.Covers({}) && locals == old(locals)
      ensures currentState ==
        if reset.Some? && reset.value.state.Some? then reset.value.state.value else old(currentState)
      ensures currentMaxGas == if reset.Some? && reset.value.state.Some? then reset.value.maxGas else old(currentMaxGas)
      ensures pendingNonces == old(pendingNonces) || fresh(pendingNonces)
      ensures calm ==> Aligned(Trimming, currentState)
      ensures calm && reset.None? ==>
        forall a :: a in dirty && !old(StrandedAt(a)) ==> FreeAt(a)
      ensures if reset.None? || reset.value.state.None? then start == old(Now()) else
        StartsFrom(old(Restart(reset.value.state.value)), old(currentState), old(AllUnbroken()), reset.value, reinject,
                   old(RulesAt(reset.value, gasPriceOn)), checks, start, turns)
      ensures mid == Now() && Consistent(mid.pending, mid.queue, mid.txs) && ThinnedFrom(start)
      ensures SplitAs(old(all.Txs()), old(all.remotes), AsSet(reinject), locals, start.txs, start.remotes)
      ensures reset.Some? ==> ResetFrom(start, mid, gasPriceOn)
      ensures reset.None? && DistinctAddrs(dirty) ==> PromotedFrom(start, mid, gasPriceOn, AddrSet(dirty))
    {
      start, turns := Now(), [];
      if reset.Some? {
        ghost var was := currentState;
        turns := Reset(reset.value, reinject, gasPriceOn, checks, calm);
        ghost var stage := if !calm then Any else if reset.value.state.Some? then Moving else Calm;
        assert Aligned(Any, was) by {
          AlwaysAligned(was);
        }
        start := Now();
        PromoteAndDemote(gasPriceOn, stage, was);
      } else {
        NoneSplit(start, AsSet(reinject), locals);
        PromoteDirty(dirty, gasPriceOn, calm);
      }
      mid := Now();
    }

    /** The second half of a run: truncates and brings the virtual nonces up to date. */
    method Conclude(ghost calm: bool) returns (ghost cuts: Cuts)
      requires Valid() && priced.Covers({}) && config.accountSlots >= 1
      requires calm ==> Aligned(Trimming, currentState)
      modifies this`pending, this`queue, this`beats, all, priced, pendingNonces
      ensures Valid() && priced.Covers({}) && WithinLimits()
      ensures Thinned()
      ensures calm ==> Aligned(Calm, currentState)
      ensures calm ==> forall a :: old(FreeAt(a)) ==> FreeAt(a)
      ensures TruncatedAs(old(pending), old(queue), cuts)
      ensures ConcludedFrom(old(Now()))
    {
      AlwaysAligned(currentState);
      cuts := Truncate(if calm then Trimming else Any, currentState);
      label Truncated:
      assert IdleKept();
      UpdateNonces(calm, currentState);
      forall a
        ensures ConcludedAt(old(Now()), a)
      {
        if a in pending {
          ListsAreOk(pending, queue, all.Txs(), a);
        }
      }
    }

    /** runReorg: follows a head change if there is one, otherwise promotes the accounts with new transactions;
        then truncates and brings the virtual nonces up to date. `start` is what promotion began with and `mid` what
        truncation found. */
    method RunReorg(reset: Option<Head>, reinject: seq<Tx>, dirty: seq<Addr>, gasPriceOn: bool, checks: Tx -> Checks,
                    ghost calm: bool)
      returns (ghost start: View, ghost mid: View, ghost cuts: Cuts, ghost turns: seq<Turn>)
      requires Valid() && priced.Covers({}) && config.accountSlots >= 1
      requires forall i :: 0 <= i < |reinject| ==> reinject[i].size > 0
      requires calm ==> gasPriceOn && Aligned(Calm, currentState)
      requires calm && reset.Some? && reset.value.state.Some? ==>
        forall a :: currentState.Nonce(a) <= reset.value.state.value.Nonce(a)
      modifies this`pending, this`queue, this`beats, this`locals, this`currentState, this`currentMaxGas,
        this`pendingNonces, all, priced, pendingNonces
      ensures Valid() && priced.Covers({}) && WithinLimits() && locals == old(locals)
      ensures currentState ==
        if reset.Some? && reset.value.state.Some? then reset.value.state.value else old(currentState)
      ensures currentMaxGas == if reset.Some? && reset.value.state.Some? then reset.value.maxGas else old(currentMaxGas)
      ensures pendingNonces == old(pendingNonces) || fresh(pendingNonces)
      ensures calm ==> Aligned(Calm, currentState)
      ensures calm && reset.None? ==>
        forall a :: a in dirty && !old(StrandedAt(a)) ==> FreeAt(a)
      ensures if reset.None? || reset.value.state.None? then start == old(Now()) else
        StartsFrom(old(Restart(reset.value.state.value)), old(currentState), old(AllUnbroken()), reset.value, reinject,
                   old(RulesAt(reset.value, gasPriceOn)), checks, start, turns)
      ensures Consistent(mid.pending, mid.queue, mid.txs) && ThinnedFrom(start)
      ensures SplitAs(old(all.Txs()), old(all.remotes), AsSet(reinject), locals, all.Txs(), all.remotes)
      ensures reset.Some? ==> ResetFrom(start, mid, gasPriceOn)
      ensures reset.None? && DistinctAddrs(dirty) ==> PromotedFrom(start, mid, gasPriceOn, AddrSet(dirty))
      ensures TruncatedAs(mid.pending, mid.queue, cuts)
      ensures ConcludedFrom(mid)
    {
      ghost var txs, remotes := all.Txs(), all.remotes;
      start, mid, turns := Regroup(reset, reinject, dirty, gasPriceOn, checks, calm);
      assert Now() == mid;
      cuts := Conclude(calm);
      ThinnedSplits(txs, remotes, AsSet(reinject), start);
    }

    lemma ThinnedSplits(txs0: set<Tx>, remotes0: set<Tx>, added: set<Tx>, v: View)
      requires SplitAs(txs0, remotes0, added, locals, v.txs, v.remotes) && ThinnedFrom(v)
      ensures SplitAs(txs0, remotes0, added, locals, all.Txs(), all.remotes)
    {
      forall t | t in all.Txs()
        ensures SplitAt(txs0, remotes0, added, locals, all.remotes, t)
      {
        assert SplitAt(txs0, remotes0, added, locals, v.remotes, t);
      }
    }

    /** The virtual nonces are up to date: those of accounts without pending transactions are what they were in `v`. */
    ghost predicate ConcludedFrom(v: View)
      reads this`pending, this`pendingNonces, pendingNonces
    {
      forall a :: ConcludedAt(v, a)
    }

    ghost predicate ConcludedAt(v: View, a: Addr)
      reads this`pending, this`pendingNonces, pendingNonces
    {
      a in v.virtual && pendingNonces.At(a) == Updated(ItemsOf(pending, a), v.virtual[a])
    }

    lemma AlwaysAligned(before: State)
      ensures Aligned(Any, before)
    {
      forall a
        ensures AlignedAt(Any, before, a)
      {
      }
    }

    /** SetGasPrice: every remote transaction below the new threshold is removed. */
    method SetGasPrice(price: nat, gasPriceOn: bool, ghost stage: Stage, ghost before: State)
      requires Valid() && priced.Covers({}) && Aligned(stage, before)
      modifies this`gasPrice, this`pending, this`queue, this`beats, all, priced, pendingNonces
      ensures Valid() && priced.Covers({}) && Aligned(stage, before)
      ensures !gasPriceOn ==> gasPrice == old(gasPrice) && pending == old(pending) && queue == old(queue)
      ensures gasPriceOn ==>
        && gasPrice == price
        && all.Txs() == old(all.Txs()) - (set tx | tx in old(all.remotes) && tx.price < price)
        && forall tx :: tx in all.remotes ==> price <= tx.price
    {
      if !gasPriceOn {
        return;
      }
      gasPrice := price;
      var drop := priced.Cap(price);
      assert AsSet(drop) == set tx | tx in drop;
      assert AsSet(drop) == set tx | tx in all.remotes && tx.price < price;
      KickOut(drop, stage, before);
    }
  }
}
