/** What a change of head brings back to the pool: the walk down both branches of the chain, what it means for the
    transactions of the two chains, and the run that follows. */
module PoolReorgs {
  import opened Options
  import opened Chains
  import opened Transactions
  import opened PricedLists
  import opened PoolViews
  import opened PoolTruncation
  import opened Noncers
  import opened PoolChanges
  import opened PoolTurns
  import opened TxPools
  import opened PoolResets

  /** Heads further apart in number than this bring nothing back. */
  const MAX_DEPTH := 64

  /** The transactions of the block behind each header. */
  type Contents = Header -> seq<Tx>

  /** The height of the last block that two chains share. */
  ghost function ForkHeight(a: Header, b: Header, g: Header): (c: nat)
    requires Rooted(a, g) && Rooted(b, g)
    ensures c <= a.number && c <= b.number
    decreases a, b
  {
    if a == b then a.number
    else if a.number > b.number then ForkHeight(a.parent.header, b, g)
    else if a.number < b.number then ForkHeight(a, b.parent.header, g)
    else ForkHeight(a.parent.header, b.parent.header, g)
  }

  lemma {:induction false} ForkIsLast(a: Header, b: Header, g: Header)
    requires Rooted(a, g) && Rooted(b, g)
    ensures Forks(a, b, ForkHeight(a, b, g))
    decreases a, b
  {
    if a != b {
      if a.number > b.number {
        ForkIsLast(a.parent.header, b, g);
      } else if a.number < b.number {
        ForkIsLast(a, b.parent.header, g);
      } else {
        ForkIsLast(a.parent.header, b.parent.header, g);
      }
    }
  }

  /** The transactions of the chain of `h` above height `c`, from the top block down. */
  function BranchTxs(contents: Contents, h: Header, c: int): seq<Tx> {
    if h.number <= c then []
    else if h.parent.NoHash? then contents(h)
    else contents(h) + BranchTxs(contents, h.parent.header, c)
  }

  function ChainTxs(contents: Contents, h: Header): seq<Tx> {
    BranchTxs(contents, h, -1)
  }

  lemma {:induction false} BranchSplits(contents: Contents, h: Header, g: Header, c: nat)
    requires Rooted(h, g) && c <= h.number
    ensures ChainTxs(contents, h) == BranchTxs(contents, h, c) + ChainTxs(contents, Ancestor(h, c))
  {
    if c < h.number {
      BranchSplits(contents, h.parent.header, g, c);
    }
  }

  /** The blocks of the chain of `h` from height `c` up are stored. */
  ghost predicate BranchStored(blocks: set<Header>, h: Header, c: nat) {
    h in blocks && (h.number <= c || (h.parent.HashOf? && BranchStored(blocks, h.parent.header, c)))
  }

  lemma {:induction false} ClosedStores(blocks: set<Header>, g: Header, h: Header, c: nat)
    requires Closed(blocks, g) && h in blocks
    ensures BranchStored(blocks, h, c)
  {
    assert StoredAt(blocks, g, h);
    if h.number > c {
      ClosedStores(blocks, g, h.parent.header, c);
    }
  }

  /** The transactions of `s` that are not in `remove`, in order. */
  function Without(s: seq<Tx>, remove: set<Tx>): seq<Tx> {
    if s == [] then [] else
      var n := |s| - 1;
      if s[n] in remove then Without(s[..n], remove) else Without(s[..n], remove) + [s[n]]
  }

  lemma {:induction false} WithoutMeans(s: seq<Tx>, remove: set<Tx>, tx: Tx)
    ensures multiset(Without(s, remove))[tx] == if tx in remove then 0 else multiset(s)[tx]
  {
    if s != [] {
      var n := |s| - 1;
      WithoutMeans(s[..n], remove, tx);
      assert s == s[..n] + [s[n]];
      CountLast(s[..n], s[n], tx);
      if s[n] !in remove {
        CountLast(Without(s[..n], remove), s[n], tx);
      }
    }
  }

  lemma CountLast(s: seq<Tx>, x: Tx, tx: Tx)
    ensures multiset(s + [x])[tx] == multiset(s)[tx] + if x == tx then 1 else 0
  {
  }

  /** TxDifference. */
  method TxDifference(a: seq<Tx>, b: seq<Tx>) returns (keep: seq<Tx>)
    ensures keep == Without(a, AsSet(b))
  {
    var remove: set<Tx> := {};
    for i := 0 to |b|
      invariant remove == AsSet(b[..i])
    {
      assert b[..i + 1] == b[..i] + [b[i]];
      remove := remove + {b[i]};
    }
    assert b[..|b|] == b;
    keep := [];
    for i := 0 to |a|
      invariant keep == Without(a[..i], remove)
    {
      assert a[..i + 1][..i] == a[..i];
      if a[i] !in remove {
        keep := keep + [a[i]];
      }
    }
    assert a[..|a|] == a;
  }

  predicate Far(a: Header, b: Header) {
    a.number > b.number + MAX_DEPTH || b.number > a.number + MAX_DEPTH
  }

  /** What a change of head brings back; nothing at all when the walk runs into a missing block and reset gives up. */
  ghost function BroughtBack(blocks: set<Header>, contents: Contents, g: Header, oldHead: Option<Header>,
                             newHead: Header)
    : Option<seq<Tx>>
    requires Rooted(newHead, g) && (oldHead.Some? ==> Rooted(oldHead.value, g))
  {
    if oldHead.None? || newHead.parent == HashOf(oldHead.value) || Far(oldHead.value, newHead) then Some([])
    else if oldHead.value !in blocks then (if newHead.number >= oldHead.value.number then None else Some([]))
    else
      var c := ForkHeight(oldHead.value, newHead, g);
      if BranchStored(blocks, oldHead.value, c) && BranchStored(blocks, newHead, c) then
        Some(Without(BranchTxs(contents, oldHead.value, c), AsSet(BranchTxs(contents, newHead, c))))
      else None
  }

  function GetBlock(blocks: set<Header>, hash: Hash): Option<Header> {
    if hash.HashOf? && hash.header in blocks then Some(hash.header) else None
  }

  /** The first part of reset: which transactions a change of head brings back. The new head is stored before it is
      announced. */
  method FindDropped(blocks: set<Header>, contents: Contents, ghost g: Header, oldHead: Option<Header>, newHead: Header)
    returns (reinject: Option<seq<Tx>>)
    requires newHead in blocks && Rooted(newHead, g) && (oldHead.Some? ==> Rooted(oldHead.value, g))
    ensures reinject == BroughtBack(blocks, contents, g, oldHead, newHead)
  {
    if oldHead.None? || newHead.parent == HashOf(oldHead.value) || Far(oldHead.value, newHead) {
      return Some([]);
    }
    var first := GetBlock(blocks, HashOf(oldHead.value));
    if first.None? {
      return if newHead.number >= oldHead.value.number then None else Some([]);
    }
    reinject := WalkBack(blocks, contents, g, first.value, newHead);
  }

  /** The walk from `from` has come to `at`, and `txs` is what it has passed. */
  ghost predicate WalkedTo(blocks: set<Header>, contents: Contents, g: Header, from: Header, c: nat, at: Header,
                           txs: seq<Tx>) {
    && at in blocks && Rooted(at, g) && c <= at.number
    && txs + BranchTxs(contents, at, c) == BranchTxs(contents, from, c)
    && (BranchStored(blocks, at, c) <==> BranchStored(blocks, from, c))
  }

  /** One step down, or into a missing block. */
  lemma WalkStep(blocks: set<Header>, contents: Contents, g: Header, from: Header, c: nat, at: Header, txs: seq<Tx>)
    requires WalkedTo(blocks, contents, g, from, c, at, txs) && c < at.number
    ensures var below := GetBlock(blocks, at.parent);
      if below.None? then !BranchStored(blocks, from, c) else
        && at.parent == HashOf(below.value) && below.value.number == at.number - 1
        && WalkedTo(blocks, contents, g, from, c, below.value, txs + contents(at))
  {
    var below := GetBlock(blocks, at.parent);
    if below.None? {
      assert !BranchStored(blocks, at.parent.header, c);
    } else {
      assert txs + contents(at) + BranchTxs(contents, below.value, c) == txs + BranchTxs(contents, at, c);
    }
  }

  lemma WalkEnds(blocks: set<Header>, contents: Contents, g: Header, from: Header, c: nat, at: Header, txs: seq<Tx>)
    requires WalkedTo(blocks, contents, g, from, c, at, txs) && c == at.number
    ensures BranchStored(blocks, from, c) && txs == BranchTxs(contents, from, c)
  {
    assert txs + [] == txs;
  }

  /** The walk down both branches. */
  method WalkBack(blocks: set<Header>, contents: Contents, ghost g: Header, oldHead: Header, newHead: Header)
    returns (reinject: Option<seq<Tx>>)
    requires newHead in blocks && Rooted(newHead, g) && oldHead in blocks && Rooted(oldHead, g)
    ensures var c := ForkHeight(oldHead, newHead, g);
      reinject == if BranchStored(blocks, oldHead, c) && BranchStored(blocks, newHead, c) then
        Some(Without(BranchTxs(contents, oldHead, c), AsSet(BranchTxs(contents, newHead, c)))) else None
  {
    ghost var c := ForkHeight(oldHead, newHead, g);
    var rem, add := oldHead, newHead;
    var discarded, included := [], [];
    var below: Option<Header>;
    while rem.number > add.number
      invariant WalkedTo(blocks, contents, g, oldHead, c, rem, discarded)
      invariant WalkedTo(blocks, contents, g, newHead, c, add, included)
      invariant ForkHeight(rem, add, g) == c
      decreases rem.number
    {
      WalkStep(blocks, contents, g, oldHead, c, rem, discarded);
      discarded := discarded + contents(rem);
      below := GetBlock(blocks, rem.parent);
      if below.None? {
        return None;
      }
      rem := below.value;
    }
    while add.number > rem.number
      invariant rem.number <= add.number
      invariant WalkedTo(blocks, contents, g, oldHead, c, rem, discarded)
      invariant WalkedTo(blocks, contents, g, newHead, c, add, included)
      invariant ForkHeight(rem, add, g) == c
      decreases add.number
    {
      WalkStep(blocks, contents, g, newHead, c, add, included);
      included := included + contents(add);
      below := GetBlock(blocks, add.parent);
      if below.None? {
        return None;
      }
      add := below.value;
    }
    while rem != add
      invariant rem.number == add.number
      invariant WalkedTo(blocks, contents, g, oldHead, c, rem, discarded)
      invariant WalkedTo(blocks, contents, g, newHead, c, add, included)
      invariant ForkHeight(rem, add, g) == c
      decreases rem.number
    {
      WalkStep(blocks, contents, g, oldHead, c, rem, discarded);
      WalkStep(blocks, contents, g, newHead, c, add, included);
      discarded := discarded + contents(rem);
      below := GetBlock(blocks, rem.parent);
      if below.None? {
        return None;
      }
      rem := below.value;
      included := included + contents(add);
      below := GetBlock(blocks, add.parent);
      if below.None? {
        return None;
      }
      add := below.value;
    }
    WalkEnds(blocks, contents, g, oldHead, c, rem, discarded);
    WalkEnds(blocks, contents, g, newHead, c, add, included);
    var keep := TxDifference(discarded, included);
    return Some(keep);
  }

  /** Which transactions leave the chain with a change of head. */
  ghost predicate Leaves(contents: Contents, oldHead: Header, newHead: Header, tx: Tx) {
    tx in ChainTxs(contents, oldHead) && tx !in ChainTxs(contents, newHead)
  }

  /** What is in `a` and not in `b` is what `a` and not `b` adds to a common base. */
  lemma DifferenceLeaves(a: seq<Tx>, b: seq<Tx>, base: seq<Tx>)
    requires NoTwice(a + base)
    ensures NoTwice(Without(a, AsSet(b)))
    ensures forall tx :: tx in Without(a, AsSet(b)) <==> tx in a + base && tx !in b + base
  {
    forall tx
      ensures multiset(Without(a, AsSet(b)))[tx] <= 1
      ensures tx in Without(a, AsSet(b)) <==> tx in a + base && tx !in b + base
    {
      WithoutMeans(a, AsSet(b), tx);
      InSeq(Without(a, AsSet(b)), tx);
      InSeq(a, tx);
      InSeq(base, tx);
      assert multiset(a + base)[tx] == multiset(a)[tx] + multiset(base)[tx];
    }
  }

  lemma InSeq(s: seq<Tx>, tx: Tx)
    ensures tx in s <==> multiset(s)[tx] > 0
  {
  }

  /** With every ancestor stored and no transaction twice on the old chain, exactly the transactions that leave the
      chain are brought back, each once, unless the heads are too far apart; then none is. */
  lemma BringsBackWhatLeft(blocks: set<Header>, contents: Contents, g: Header, oldHead: Header, newHead: Header)
    requires Closed(blocks, g) && oldHead in blocks && newHead in blocks && Rooted(oldHead, g) && Rooted(newHead, g)
    requires NoTwice(ChainTxs(contents, oldHead))
    ensures var r := BroughtBack(blocks, contents, g, Some(oldHead), newHead);
      && r.Some? && NoTwice(r.value)
      && forall tx :: tx in r.value <==> !Far(oldHead, newHead) && Leaves(contents, oldHead, newHead, tx)
  {
    var c := ForkHeight(oldHead, newHead, g);
    ForkIsLast(oldHead, newHead, g);
    ClosedStores(blocks, g, oldHead, c);
    ClosedStores(blocks, g, newHead, c);
    BranchSplits(contents, oldHead, g, c);
    BranchSplits(contents, newHead, g, c);
    DifferenceLeaves(BranchTxs(contents, oldHead, c), BranchTxs(contents, newHead, c),
                     ChainTxs(contents, Ancestor(oldHead, c)));
    if newHead.parent == HashOf(oldHead) {
      ExtendsOne(contents, oldHead, newHead);
    }
  }

  lemma ExtendsOne(contents: Contents, oldHead: Header, newHead: Header)
    requires newHead.parent == HashOf(oldHead)
    ensures forall tx :: tx in ChainTxs(contents, oldHead) ==> tx in ChainTxs(contents, newHead)
  {
    assert ChainTxs(contents, newHead) == contents(newHead) + ChainTxs(contents, oldHead);
  }

  /** Over any number of head changes, none of them too far, a transaction that is on the first chain and not on the
      last is brought back at one of them. */
  lemma {:induction false} NothingIsForgotten(blocks: set<Header>, contents: Contents, g: Header, heads: seq<Header>,
                                              tx: Tx)
    requires Closed(blocks, g) && heads != []
    requires forall h :: h in heads ==> h in blocks && Rooted(h, g) && NoTwice(ChainTxs(contents, h))
    requires forall i :: 0 < i < |heads| ==> !Far(heads[i - 1], heads[i])
    requires Leaves(contents, heads[0], heads[|heads| - 1], tx)
    ensures exists i :: 0 < i < |heads| && BringsBack(blocks, contents, g, heads[i - 1], heads[i], tx)
  {
    var n := |heads| - 1;
    var h, last := heads[n - 1], heads[n];
    if tx in ChainTxs(contents, h) {
      BringsBackWhatLeft(blocks, contents, g, h, last);
      assert BringsBack(blocks, contents, g, heads[n - 1], heads[n], tx);
    } else {
      NothingIsForgotten(blocks, contents, g, heads[..n], tx);
      var i :| 0 < i < n && BringsBack(blocks, contents, g, heads[..n][i - 1], heads[..n][i], tx);
      assert BringsBack(blocks, contents, g, heads[i - 1], heads[i], tx);
    }
  }

  ghost predicate BringsBack(blocks: set<Header>, contents: Contents, g: Header, oldHead: Header, newHead: Header,
                             tx: Tx)
  {
    && Rooted(oldHead, g) && Rooted(newHead, g)
    && var r := BroughtBack(blocks, contents, g, Some(oldHead), newHead); r.Some? && tx in r.value
  }

  /** `tx` has had a turn in the batch: it was refused, is in the pool after the batch, or was taken at a later turn. */
  ghost predicate Offered(turns: seq<Turn>, txs: seq<Tx>, after: View, tx: Tx) {
    exists i :: 0 <= i < |turns| == |txs| && txs[i] == tx && Remains(turns, txs, after, i)
  }

  lemma AllOffered(v: View, turns: seq<Turn>, txs: seq<Tx>, rules: Rules, checks: Tx -> Checks, config: Config)
    requires Turns(v, turns, txs, false, rules, checks, config)
    ensures forall tx :: tx in txs ==> Offered(turns, txs, ViewAfter(v, turns), tx)
  {
    TurnsKeep(v, turns, txs, false, rules, checks, config);
    forall tx | tx in txs
      ensures Offered(turns, txs, ViewAfter(v, turns), tx)
    {
      var i :| 0 <= i < |txs| && txs[i] == tx;
      assert Remains(turns, txs, ViewAfter(v, turns), i);
    }
  }

  /** Both chains are stored in full, and the old one holds no transaction twice. */
  ghost predicate InOrder(blocks: set<Header>, contents: Contents, g: Header, oldHead: Option<Header>) {
    Closed(blocks, g) && oldHead.Some? && oldHead.value in blocks && NoTwice(ChainTxs(contents, oldHead.value))
  }

  lemma LeaversOffered(blocks: set<Header>, contents: Contents, g: Header, oldHead: Option<Header>, newHead: Header,
                       v: View, turns: seq<Turn>, txs: seq<Tx>, rules: Rules, checks: Tx -> Checks, config: Config)
    requires InOrder(blocks, contents, g, oldHead) && newHead in blocks
    requires Rooted(newHead, g) && Rooted(oldHead.value, g) && !Far(oldHead.value, newHead)
    requires BroughtBack(blocks, contents, g, oldHead, newHead) == Some(txs)
    requires Turns(v, turns, txs, false, rules, checks, config)
    ensures forall tx :: Leaves(contents, oldHead.value, newHead, tx) ==> Offered(turns, txs, ViewAfter(v, turns), tx)
  {
    BringsBackWhatLeft(blocks, contents, g, oldHead.value, newHead);
    AllOffered(v, turns, txs, rules, checks, config);
  }

  /** The run when reset gives up: the rest of it goes on from the old head. */
  method StayBehind(pool: TxPool, maxGas: nat, dirty: seq<Addr>, gasPriceOn: bool, checks: Tx -> Checks)
    returns (ghost start: View, ghost mid: View, ghost cuts: Cuts, ghost turns: seq<Turn>)
    requires pool.Valid() && pool.priced.Covers({}) && pool.config.accountSlots >= 1
    modifies pool`pending, pool`queue, pool`beats, pool`locals, pool`currentState, pool`currentMaxGas,
      pool`pendingNonces, pool.all, pool.priced, pool.pendingNonces
    ensures pool.Valid() && pool.priced.Covers({})
    ensures pool.currentState == old(pool.currentState) && start == old(pool.Now())
    ensures pool.ResetFrom(start, mid, gasPriceOn)
  {
    start, mid, cuts, turns := pool.RunReorg(Some(Head(None, maxGas)), [], dirty, gasPriceOn, checks, false);
  }

  /** Every account is left as a run that follows a head change leaves it. */
  ghost predicate AllFollowed(pool: TxPool, v: View, mid: View, c: Cuts, gasPriceOn: bool)
    reads pool, pool.pendingNonces
  {
    && (forall a :: ResetWell(pool, v, mid, c, gasPriceOn, a))
    && forall a :: FollowedAt(pool, v, mid, c, gasPriceOn, a)
  }

  /** The run when the walk has brought `reinject` back. */
  method FollowBranches(pool: TxPool, ghost blocks: set<Header>, ghost contents: Contents, ghost g: Header,
                        ghost oldHead: Option<Header>, ghost newHead: Header, reinject: seq<Tx>, state: State,
                        maxGas: nat, dirty: seq<Addr>, gasPriceOn: bool, checks: Tx -> Checks)
    returns (ghost start: View, ghost mid: View, ghost cuts: Cuts, ghost turns: seq<Turn>)
    requires pool.Valid() && pool.priced.Covers({}) && pool.config.accountSlots >= 1
    requires newHead in blocks && Rooted(newHead, g) && (oldHead.Some? ==> Rooted(oldHead.value, g))
    requires BroughtBack(blocks, contents, g, oldHead, newHead) == Some(reinject)
    requires forall i :: 0 <= i < |reinject| ==> reinject[i].size > 0
    modifies pool`pending, pool`queue, pool`beats, pool`locals, pool`currentState, pool`currentMaxGas,
      pool`pendingNonces, pool.all, pool.priced, pool.pendingNonces
    ensures pool.Valid() && pool.priced.Covers({}) && pool.currentState == state
    ensures pool.StartsFrom(old(pool.Restart(state)), old(pool.currentState), old(pool.AllUnbroken()),
                            Head(Some(state), maxGas), reinject,
                            old(pool.RulesAt(Head(Some(state), maxGas), gasPriceOn)), checks, start, turns)
    ensures AllFollowed(pool, start, mid, cuts, gasPriceOn)
    ensures InOrder(blocks, contents, g, oldHead) && !Far(oldHead.value, newHead) ==>
      forall tx :: Leaves(contents, oldHead.value, newHead, tx) ==> Offered(turns, reinject, start, tx)
  {
    ghost var restart, rules := pool.Restart(state), pool.RulesAt(Head(Some(state), maxGas), gasPriceOn);
    start, mid, cuts, turns := FollowHead(pool, Head(Some(state), maxGas), reinject, dirty, gasPriceOn, checks);
    if InOrder(blocks, contents, g, oldHead) && !Far(oldHead.value, newHead) {
      LeaversOffered(blocks, contents, g, oldHead, newHead, restart, turns, reinject, rules, checks, pool.config);
    }
  }

  /** The run that follows a head change, from the two heads on. If a block is missing the pool stays at its old head.
      Otherwise what the walk brings back is offered to the pool and every account is left as `FollowHead` says. With
      both chains stored and the heads near, every transaction that leaves the chain is offered. */
  method FollowReorg(pool: TxPool, blocks: set<Header>, contents: Contents, ghost g: Header, oldHead: Option<Header>,
                     newHead: Header, state: State, maxGas: nat, dirty: seq<Addr>, gasPriceOn: bool,
                     checks: Tx -> Checks)
    returns (ghost start: View, ghost mid: View, ghost cuts: Cuts, ghost turns: seq<Turn>,
             ghost back: Option<seq<Tx>>)
    requires pool.Valid() && pool.priced.Covers({}) && pool.config.accountSlots >= 1
    requires newHead in blocks && Rooted(newHead, g) && (oldHead.Some? ==> Rooted(oldHead.value, g))
    requires forall h, tx :: tx in contents(h) ==> tx.size > 0
    modifies pool`pending, pool`queue, pool`beats, pool`locals, pool`currentState, pool`currentMaxGas,
      pool`pendingNonces, pool.all, pool.priced, pool.pendingNonces
    ensures pool.Valid() && pool.priced.Covers({}) && back == BroughtBack(blocks, contents, g, oldHead, newHead)
    ensures back.None? ==> pool.currentState == old(pool.currentState) && start == old(pool.Now())
    ensures back.None? ==> pool.ResetFrom(start, mid, gasPriceOn)
    ensures back.Some? ==> pool.currentState == state && AllFollowed(pool, start, mid, cuts, gasPriceOn)
    ensures back.Some? ==>
      pool.StartsFrom(old(pool.Restart(state)), old(pool.currentState), old(pool.AllUnbroken()),
                      Head(Some(state), maxGas), back.value,
                      old(pool.RulesAt(Head(Some(state), maxGas), gasPriceOn)), checks, start, turns)
    ensures InOrder(blocks, contents, g, oldHead) ==> back.Some?
    ensures InOrder(blocks, contents, g, oldHead) && !Far(oldHead.value, newHead) ==>
      forall tx :: Leaves(contents, oldHead.value, newHead, tx) ==> Offered(turns, back.value, start, tx)
  {
    var reinject := FindDropped(blocks, contents, g, oldHead, newHead);
    back := reinject;
    if InOrder(blocks, contents, g, oldHead) {
      BringsBackWhatLeft(blocks, contents, g, oldHead.value, newHead);
    }
    if reinject.None? {
      start, mid, cuts, turns := StayBehind(pool, maxGas, dirty, gasPriceOn, checks);
    } else {
      BroughtBackSized(blocks, contents, g, oldHead, newHead);
      start, mid, cuts, turns := FollowBranches(pool, blocks, contents, g, oldHead, newHead, reinject.value, state,
                                                maxGas, dirty, gasPriceOn, checks);
    }
  }

  lemma BroughtBackSized(blocks: set<Header>, contents: Contents, g: Header, oldHead: Option<Header>, newHead: Header)
    requires Rooted(newHead, g) && (oldHead.Some? ==> Rooted(oldHead.value, g))
    requires forall h, tx :: tx in contents(h) ==> tx.size > 0
    ensures var back := BroughtBack(blocks, contents, g, oldHead, newHead);
      back.Some? ==> forall i :: 0 <= i < |back.value| ==> back.value[i].size > 0
  {
    if oldHead.Some? {
      var c := ForkHeight(oldHead.value, newHead, g);
      BranchSized(contents, oldHead.value, c);
      var a, b := BranchTxs(contents, oldHead.value, c), AsSet(BranchTxs(contents, newHead, c));
      forall tx
        ensures tx in Without(a, b) ==> tx in a
      {
        WithoutMeans(a, b, tx);
        InSeq(Without(a, b), tx);
        InSeq(a, tx);
      }
    }
  }

  lemma {:induction false} BranchSized(contents: Contents, h: Header, c: int)
    requires forall h, tx :: tx in contents(h) ==> tx.size > 0
    ensures forall tx :: tx in BranchTxs(contents, h, c) ==> tx.size > 0
  {
    if h.number > c && h.parent.HashOf? {
      BranchSized(contents, h.parent.header, c);
    }
  }

  /** The chain of `n` blocks on top of the genesis. */
  function Tower(g: Header, n: nat): Header {
    if n == 0 then g else Header(HashOf(Tower(g, n - 1)), n, 1, 0)
  }

  lemma {:induction false} TowerStands(g: Header, n: nat)
    requires g.number == 0 && g.parent == NoHash
    ensures Rooted(Tower(g, n), g) && Tower(g, n).number == n
  {
    if n > 0 {
      TowerStands(g, n - 1);
    }
  }

  lemma {:induction false} TowerIsEmpty(contents: Contents, g: Header, n: nat)
    requires g.number == 0 && g.parent == NoHash && forall m: nat :: contents(Tower(g, m)) == []
    ensures ChainTxs(contents, Tower(g, n)) == []
    decreases n
  {
    assert contents(Tower(g, n)) == [];
    if n > 0 {
      TowerIsEmpty(contents, g, n - 1);
    }
  }

  /** The blocks of a tower and one more block on the genesis. */
  function TowerWith(g: Header, n: nat, side: Header): set<Header> {
    if n == 0 then {g, side} else TowerWith(g, n - 1, side) + {Tower(g, n)}
  }

  lemma {:induction false} TowerIsClosed(g: Header, n: nat, side: Header)
    requires g.number == 0 && g.parent == NoHash && side == Header(HashOf(g), 1, 1, 1)
    ensures Closed(TowerWith(g, n, side), g) && {g, side, Tower(g, n)} <= TowerWith(g, n, side)
  {
    var blocks := TowerWith(g, n, side);
    if n == 0 {
      forall h | h in blocks
        ensures StoredAt(blocks, g, h)
      {
      }
    } else {
      TowerIsClosed(g, n - 1, side);
      TowerStands(g, n);
      var below := TowerWith(g, n - 1, side);
      forall h | h in blocks
        ensures StoredAt(blocks, g, h)
      {
        assert h in below ==> StoredAt(below, g, h);
      }
    }
  }

  /** A transaction that leaves the chain and is not brought back: the new chain is much longer. */
  lemma FarInput() returns (blocks: set<Header>, contents: Contents, g: Header, oldHead: Header, newHead: Header,
                            tx: Tx)
    ensures InOrder(blocks, contents, g, Some(oldHead)) && newHead in blocks && Rooted(oldHead, g) && Rooted(newHead, g)
    ensures Leaves(contents, oldHead, newHead, tx)
    ensures BroughtBack(blocks, contents, g, Some(oldHead), newHead) == Some([])
  {
    g := Header(NoHash, 0, 1, 0);
    var n := MAX_DEPTH + 2;
    oldHead, newHead := Header(HashOf(g), 1, 1, 1), Tower(g, n);
    tx := Tx(1, 0, 1, 21000, 0, 110, 0);
    var side, mine := oldHead, tx;
    contents := (h: Header) => if h == side then [mine] else [];
    blocks := TowerWith(g, n, side);
    TowerIsClosed(g, n, side);
    TowerStands(g, n);
    forall m: nat
      ensures contents(Tower(g, m)) == []
    {
      TowerStands(g, m);
    }
    TowerIsEmpty(contents, g, n);
    assert ChainTxs(contents, g) == [];
    assert ChainTxs(contents, oldHead) == [tx];
  }
}
