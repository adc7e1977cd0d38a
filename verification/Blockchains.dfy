/** The block chain's canonical number index and transaction lookup index through extension and reorganisation.
    A block stands behind its header, whose hash commits to its transactions. */
module Blockchains {
  import opened Options
  import opened Chains

  /** The hash of a transaction. */
  type TxId = nat
  type Lookup = map<TxId, nat>
  type Bodies = Header -> set<TxId>

  datatype ReorgError = InvalidOldChain | InvalidNewChain
  datatype Outcome = UnknownAncestor | Uncommitted | Failed(error: ReorgError) | Side | Canonical

  /** The lookup entries of one block. */
  function Entries(txs: set<TxId>, number: nat): Lookup {
    map t | t in txs :: number
  }

  /** The lookup entries of the blocks of a chain above height `n`, later blocks taking precedence. */
  function EntriesAbove(bodies: Bodies, h: Header, n: int): Lookup {
    if h.number <= n then map[]
    else if h.parent.NoHash? then Entries(bodies(h), h.number)
    else EntriesAbove(bodies, h.parent.header, n) + Entries(bodies(h), h.number)
  }

  /** The lookup entries of a whole chain. */
  function LookupFor(bodies: Bodies, h: Header): Lookup {
    EntriesAbove(bodies, h, -1)
  }

  /** No transaction is in two blocks of the chain, as account nonces ensure. */
  ghost predicate NoRepeats(bodies: Bodies, h: Header) {
    h.parent.HashOf? ==> bodies(h) !! LookupFor(bodies, h.parent.header).Keys && NoRepeats(bodies, h.parent.header)
  }

  /** The lookup of a chain holds exactly the transactions of its blocks, each with the number of one of its blocks. */
  lemma {:induction false} LookupMeans(bodies: Bodies, h: Header, g: Header, t: TxId)
    requires Rooted(h, g) && g.parent == NoHash
    ensures t in LookupFor(bodies, h) <==> InChain(bodies, h, t)
    ensures t in LookupFor(bodies, h) ==>
      LookupFor(bodies, h)[t] <= h.number && t in bodies(Ancestor(h, LookupFor(bodies, h)[t]))
  {
    if h.number == 0 {
      OnlyHere(bodies, h, t);
    } else {
      var p := h.parent.header;
      LookupMeans(bodies, p, g, t);
      assert t in LookupFor(bodies, h) <==> t in LookupFor(bodies, p) || t in bodies(h);
      HereOrBelow(bodies, h, p, t);
    }
  }

  ghost predicate InChain(bodies: Bodies, h: Header, t: TxId) {
    exists n: nat :: n <= h.number && t in bodies(Ancestor(h, n))
  }

  lemma OnlyHere(bodies: Bodies, h: Header, t: TxId)
    requires h.number == 0
    ensures InChain(bodies, h, t) <==> t in bodies(h)
  {
    assert Ancestor(h, 0) == h;
    if t in bodies(h) {
      assert t in bodies(Ancestor(h, 0));
    }
  }

  lemma HereOrBelow(bodies: Bodies, h: Header, p: Header, t: TxId)
    requires h.parent == HashOf(p) && h.number == p.number + 1
    ensures InChain(bodies, h, t) <==> InChain(bodies, p, t) || t in bodies(h)
  {
    if InChain(bodies, h, t) {
      var n: nat :| n <= h.number && t in bodies(Ancestor(h, n));
      assert Ancestor(h, n) == if n <= p.number then Ancestor(p, n) else h;
    }
    if InChain(bodies, p, t) {
      var n: nat :| n <= p.number && t in bodies(Ancestor(p, n));
      assert Ancestor(h, n) == Ancestor(p, n);
    }
    if t in bodies(h) {
      assert t in bodies(Ancestor(h, h.number));
    }
  }

  lemma {:induction false} EntriesSplit(bodies: Bodies, h: Header, g: Header, n: nat)
    requires Rooted(h, g) && g.parent == NoHash && n <= h.number
    ensures LookupFor(bodies, h) == LookupFor(bodies, Ancestor(h, n)) + EntriesAbove(bodies, h, n)
  {
    if n < h.number {
      EntriesSplit(bodies, h.parent.header, g, n);
    }
  }

  /** One more block on top of a branch. */
  lemma EntriesGrow(bodies: Bodies, h: Header, b: Header, n: nat, base: Lookup)
    requires b.parent == HashOf(h) && b.number > n
    ensures var more := EntriesAbove(bodies, h, n) + Entries(bodies(b), b.number);
      && EntriesAbove(bodies, b, n) == more && more.Keys == EntriesAbove(bodies, h, n).Keys + bodies(b)
      && base + EntriesAbove(bodies, h, n) + Entries(bodies(b), b.number) == base + more
  {
  }

  lemma {:induction false} BranchIsApart(bodies: Bodies, h: Header, g: Header, n: nat)
    requires Rooted(h, g) && g.parent == NoHash && n <= h.number && NoRepeats(bodies, h)
    ensures LookupFor(bodies, Ancestor(h, n)).Keys !! EntriesAbove(bodies, h, n).Keys
  {
    if n < h.number {
      var p := h.parent.header;
      BranchIsApart(bodies, p, g, n);
      EntriesSplit(bodies, p, g, n);
    }
  }

  /** `s` is the chain of `h` from the top down. */
  ghost predicate Path(s: seq<Header>, h: Header) {
    |s| <= h.number && forall i :: 0 <= i < |s| ==> s[i] == Ancestor(h, h.number - i)
  }

  /** `s` is the chain of `h` from the top down to just above height `n`. */
  ghost predicate PathTo(s: seq<Header>, h: Header, n: nat) {
    n <= h.number && |s| == h.number - n && Path(s, h)
  }

  /** One more block on a path. */
  lemma PathGrows(s: seq<Header>, h: Header, g: Header, b: Header)
    requires Rooted(h, g) && PathTo(s, h, b.number) && b.number > 0 && b == Ancestor(h, b.number)
    ensures PathTo(s + [b], h, b.number - 1)
    ensures b.parent.HashOf? && b.parent.header.number == b.number - 1 && b.parent.header == Ancestor(h, b.number - 1)
  {
    AncestorRooted(h, g, b.number);
    AncestorOfAncestor(h, g, b.number, b.number - 1);
  }

  /** `m` is `m0` with the ancestors of `h` written above height `c` and up to height `top`. */
  ghost predicate Overwritten(m: Index, m0: Index, h: Header, c: nat, top: nat) {
    forall n :: OverwrittenAt(m, m0, h, c, top, n)
  }

  ghost predicate OverwrittenAt(m: Index, m0: Index, h: Header, c: nat, top: nat, n: nat) {
    Read(m, n) == if c < n <= top then HashOf(Ancestor(h, n)) else Read(m0, n)
  }

  lemma OverwriteOne(m: Index, m0: Index, h: Header, c: nat, top: nat)
    requires Overwritten(m, m0, h, c, top) && c <= top
    ensures Overwritten(m[top + 1 := HashOf(Ancestor(h, top + 1))], m0, h, c, top + 1)
  {
    var m' := m[top + 1 := HashOf(Ancestor(h, top + 1))];
    var top' := top + 1;
    forall n: nat
      ensures OverwrittenAt(m', m0, h, c, top', n)
    {
      assert OverwrittenAt(m, m0, h, c, top, n);
    }
  }

  class BlockChain {
    const genesis: Header
    const bodies: Bodies
    var blocks: set<Header>
    var canonical: Index
    var lookup: Lookup
    var currentBlock: Header
    var currentHeader: Header
    var currentFastBlock: Header

    /** Both indexes describe exactly the chain of the current block. */
    ghost predicate Ok()
      reads this
    {
      && genesis.parent == NoHash && IndexOf(canonical, currentBlock, genesis)
      && lookup == LookupFor(bodies, currentBlock)
    }

    constructor (genesis: Header, bodies: Bodies)
      requires genesis.number == 0 && genesis.parent == NoHash
      ensures Ok() && Whole(genesis) && currentBlock == currentHeader == currentFastBlock == genesis
      ensures this.genesis == genesis && this.bodies == bodies
    {
      this.genesis, this.bodies, blocks := genesis, bodies, {genesis};
      canonical, lookup := map[0 := HashOf(genesis)], Entries(bodies(genesis), 0);
      currentBlock, currentHeader, currentFastBlock := genesis, genesis, genesis;
    }

    function GetBlock(hash: Hash): Hash
      reads this`blocks
    {
      if hash.HashOf? && hash.header in blocks then hash else NoHash
    }

    /** writeHeadBlock. */
    method WriteHeadBlock(block: Header)
      modifies this`canonical, this`lookup, this`currentBlock, this`currentHeader, this`currentFastBlock
      ensures canonical == old(canonical)[block.number := HashOf(block)]
      ensures lookup == old(lookup) + Entries(bodies(block), block.number)
      ensures currentBlock == block
      ensures var heads := Read(old(canonical), block.number) != HashOf(block);
        && currentHeader == (if heads then block else old(currentHeader))
        && currentFastBlock == (if heads then block else old(currentFastBlock))
    {
      var updateHeads := Read(canonical, block.number) != HashOf(block);
      canonical := canonical[block.number := HashOf(block)];
      lookup := lookup + Entries(bodies(block), block.number);
      if updateHeads {
        currentHeader, currentFastBlock := block, block;
      }
      currentBlock := block;
    }

    /** Nothing is missing from the store. */
    ghost predicate Whole(b: Header)
      reads this`blocks
    {
      Closed(blocks, genesis) && b in blocks
    }

    /** Steps down from `from` to height `n`, or runs into a missing block. */
    method StepDownTo(from: Header, n: nat) returns (at: Hash, path: seq<Header>)
      requires Rooted(from, genesis) && n <= from.number
      ensures at.HashOf? ==> PathTo(path, from, n) && at.header == Ancestor(from, n) && at.header.number == n
      ensures Whole(from) ==> at.HashOf? && Whole(at.header)
    {
      at, path := HashOf(from), [];
      while at.HashOf? && at.header.number != n
        invariant at.HashOf? ==>
          n <= at.header.number && PathTo(path, from, at.header.number) && at.header == Ancestor(from, at.header.number)
        invariant Whole(from) ==> at.HashOf? && Whole(at.header)
        decreases if at.HashOf? then at.header.number else 0, at
      {
        PathGrows(path, from, genesis, at.header);
        assert Whole(at.header) ==> StoredAt(blocks, genesis, at.header);
        path := path + [at.header];
        at := GetBlock(at.header.parent);
      }
    }

    /** The walk of reorg: both branches from the top down to the last common block. */
    method FindFork(oldBlock: Header, newBlock: Header)
      returns (error: Option<ReorgError>, oldChain: seq<Header>, newChain: seq<Header>, ghost c: nat)
      requires Rooted(oldBlock, genesis) && Rooted(newBlock, genesis)
      ensures error.None? ==>
        Forks(oldBlock, newBlock, c) && PathTo(oldChain, oldBlock, c) && PathTo(newChain, newBlock, c)
      ensures Whole(oldBlock) && Whole(newBlock) ==> error.None?
    {
      c := 0;
      var o, w := HashOf(oldBlock), HashOf(newBlock);
      oldChain, newChain := [], [];
      if oldBlock.number > newBlock.number {
        o, oldChain := StepDownTo(oldBlock, newBlock.number);
      } else {
        w, newChain := StepDownTo(newBlock, oldBlock.number);
      }
      if o == NoHash {
        return Some(InvalidOldChain), oldChain, newChain, c;
      }
      if w == NoHash {
        return Some(InvalidNewChain), oldChain, newChain, c;
      }
      var ob, wb := o.header, w.header;
      while ob != wb
        invariant ob.number == wb.number && (Whole(oldBlock) ==> Whole(ob)) && (Whole(newBlock) ==> Whole(wb))
        invariant PathTo(oldChain, oldBlock, ob.number) && ob == Ancestor(oldBlock, ob.number)
        invariant PathTo(newChain, newBlock, wb.number) && wb == Ancestor(newBlock, wb.number)
        invariant ob.number < oldBlock.number && ob.number < newBlock.number ==>
          Ancestor(oldBlock, ob.number + 1) != Ancestor(newBlock, ob.number + 1)
        decreases ob.number
      {
        AncestorRooted(oldBlock, genesis, ob.number);
        AncestorRooted(newBlock, genesis, wb.number);
        PathGrows(oldChain, oldBlock, genesis, ob);
        PathGrows(newChain, newBlock, genesis, wb);
        assert Whole(ob) ==> StoredAt(blocks, genesis, ob);
        assert Whole(wb) ==> StoredAt(blocks, genesis, wb);
        oldChain, newChain := oldChain + [ob], newChain + [wb];
        o := GetBlock(ob.parent);
        if o == NoHash {
          return Some(InvalidOldChain), oldChain, newChain, c;
        }
        w := GetBlock(wb.parent);
        if w == NoHash {
          return Some(InvalidNewChain), oldChain, newChain, c;
        }
        ob, wb := o.header, w.header;
      }
      c := ob.number;
      return None, oldChain, newChain, c;
    }

    /** Writes all of the new branch but its top, from the bottom up. */
    method WriteBranch(newChain: seq<Header>, ghost newBlock: Header, ghost c: nat) returns (addedTxs: set<TxId>)
      requires Rooted(newBlock, genesis) && PathTo(newChain, newBlock, c)
      modifies this`canonical, this`lookup, this`currentBlock, this`currentHeader, this`currentFastBlock
      ensures addedTxs == Added(bodies, newBlock, c).Keys && lookup == old(lookup) + Added(bodies, newBlock, c)
      ensures BranchWritten(old(canonical), canonical, newBlock, c)
      ensures if newBlock.number >= c + 2 then currentBlock.number + 1 == newBlock.number
        else currentBlock == old(currentBlock)
    {
      addedTxs := {};
      var i := |newChain| - 1;
      ghost var h := Ancestor(newBlock, c);
      AncestorRooted(newBlock, genesis, c);
      assert lookup + map[] == lookup;
      while i >= 1
        invariant 0 <= i < |newChain| || (i == -1 && newChain == [])
        invariant newChain != [] ==> h == Ancestor(newBlock, newBlock.number - i - 1)
        invariant i == |newChain| - 1 ==>
          currentBlock == old(currentBlock) && canonical == old(canonical) && lookup == old(lookup) && addedTxs == {}
        invariant i < |newChain| - 1 ==> currentBlock == h
        invariant addedTxs == EntriesAbove(bodies, h, c).Keys && lookup == old(lookup) + EntriesAbove(bodies, h, c)
        invariant newChain != [] ==> Overwritten(canonical, old(canonical), newBlock, c, newBlock.number - i - 1)
      {
        var b := newChain[i];
        BranchStep(newBlock, genesis, newBlock.number - i);
        OverwriteOne(canonical, old(canonical), newBlock, c, newBlock.number - i - 1);
        EntriesGrow(bodies, h, b, c, old(lookup));
        WriteHeadBlock(b);
        addedTxs := addedTxs + bodies(b);
        h := b;
        i := i - 1;
      }
    }

    lemma BranchStep(top: Header, g: Header, n: nat)
      requires Rooted(top, g) && 0 < n <= top.number
      ensures var b := Ancestor(top, n); b.number == n && b.parent == HashOf(Ancestor(top, n - 1))
    {
      AncestorRooted(top, g, n);
      AncestorRooted(top, g, n - 1);
      AncestorOfAncestor(top, g, n, n - 1);
    }

    /** The transactions of the dropped branch. */
    method TxsOf(path: seq<Header>, ghost h: Header, ghost c: nat) returns (txs: set<TxId>)
      requires Rooted(h, genesis) && PathTo(path, h, c)
      ensures txs == EntriesAbove(bodies, h, c).Keys
    {
      txs := {};
      var i := |path|;
      AncestorRooted(h, genesis, c);
      while i > 0
        invariant 0 <= i <= |path| && txs == EntriesAbove(bodies, Ancestor(h, h.number - i), c).Keys
      {
        i := i - 1;
        BranchStep(h, genesis, h.number - i);
        txs := txs + bodies(path[i]);
      }
      assert Ancestor(h, h.number) == h;
    }

    /** reorg: writes the new branch but its top, drops the lookups of transactions only the old branch had, and
        deletes the numbers above what is then the current block. */
    method Reorg(oldBlock: Header, newBlock: Header) returns (error: Option<ReorgError>)
      requires Ok() && oldBlock == currentBlock && Rooted(newBlock, genesis) && NoRepeats(bodies, oldBlock)
      modifies this`canonical, this`lookup, this`currentBlock, this`currentHeader, this`currentFastBlock
      ensures Whole(oldBlock) && Whole(newBlock) ==> error.None?
      ensures error.Some? ==>
        && canonical == old(canonical) && lookup == old(lookup)
        && currentBlock == oldBlock && currentHeader == old(currentHeader) && currentFastBlock == old(currentFastBlock)
      ensures error.None? ==>
        && lookup + Entries(bodies(newBlock), newBlock.number) == LookupFor(bodies, newBlock)
        && (IndexOf(canonical[newBlock.number := HashOf(newBlock)], newBlock, genesis) <==>
              !StaleAbove(old(canonical), oldBlock, newBlock))
    {
      ghost var was, c := canonical, 0;
      var oldChain, newChain;
      error, oldChain, newChain, c := FindFork(oldBlock, newBlock);
      if error.Some? {
        return;
      }
      Rewrite(oldBlock, newBlock, oldChain, newChain, c);
    }

    /** The writing part of reorg. */
    method Rewrite(oldBlock: Header, newBlock: Header, oldChain: seq<Header>, newChain: seq<Header>, ghost c: nat)
      requires Ok() && oldBlock == currentBlock && Rooted(newBlock, genesis) && NoRepeats(bodies, oldBlock)
      requires Forks(oldBlock, newBlock, c) && PathTo(oldChain, oldBlock, c) && PathTo(newChain, newBlock, c)
      modifies this`canonical, this`lookup, this`currentBlock, this`currentHeader, this`currentFastBlock
      ensures lookup + Entries(bodies(newBlock), newBlock.number) == LookupFor(bodies, newBlock)
      ensures IndexOf(canonical[newBlock.number := HashOf(newBlock)], newBlock, genesis) <==>
        !StaleAbove(old(canonical), oldBlock, newBlock)
    {
      ghost var was := canonical;
      var deletedTxs := TxsOf(oldChain, oldBlock, c);
      var addedTxs := WriteBranch(newChain, newBlock, c);
      lookup := lookup - (deletedTxs - addedTxs);
      LookupAdopts(bodies, oldBlock, newBlock, genesis, c);
      DeleteStale(was, oldBlock, newBlock, c);
    }

    /** Deletes the numbers above the current block. */
    method DeleteStale(ghost was: Index, ghost oldBlock: Header, ghost newBlock: Header, ghost c: nat)
      requires IndexOf(was, oldBlock, genesis) && Rooted(newBlock, genesis) && Forks(oldBlock, newBlock, c)
      requires BranchWritten(was, canonical, newBlock, c)
      requires currentBlock.number == if newBlock.number >= c + 2 then newBlock.number - 1 else oldBlock.number
      modifies this`canonical
      ensures IndexOf(canonical[newBlock.number := HashOf(newBlock)], newBlock, genesis) <==>
        !StaleAbove(was, oldBlock, newBlock)
    {
      ghost var m := canonical;
      Contiguous(was, m, oldBlock, newBlock, genesis, c);
      canonical := DeleteAbove(canonical, currentBlock.number, Highest(oldBlock, newBlock, c));
      IndexAdopts(was, m, canonical, oldBlock, newBlock, genesis, c);
    }

    /** The common end of writeKnownBlock and writeBlockWithState: reorganises if needed and sets the head. */
    method WriteKnownBlock(block: Header) returns (error: Option<ReorgError>)
      requires Ok() && Rooted(block, genesis) && NoRepeats(bodies, currentBlock)
      modifies this`canonical, this`lookup, this`currentBlock, this`currentHeader, this`currentFastBlock
      ensures Whole(old(currentBlock)) && Whole(block) ==> error.None?
      ensures error.Some? ==>
        && canonical == old(canonical) && lookup == old(lookup) && currentBlock == old(currentBlock)
        && currentHeader == old(currentHeader) && currentFastBlock == old(currentFastBlock)
      ensures error.None? ==>
        && currentBlock == block && lookup == LookupFor(bodies, block)
        && (Ok() <==> !StaleAbove(old(canonical), old(currentBlock), block))
    {
      if block.parent != HashOf(currentBlock) {
        error := Reorg(currentBlock, block);
        if error.Some? {
          return;
        }
      } else {
        IndexExtends(canonical, currentBlock, block, genesis);
      }
      WriteHeadBlock(block);
      error := None;
    }

    /** writeBlockWithState: stores a block and makes it the head if its total difficulty wins; `committed` says whether
        its public and private states could be committed. */
    method WriteBlock(block: Header, committed: bool, currentPreserve: bool, blockPreserve: bool, coin: bool)
      returns (r: Outcome)
      requires Ok() && Rooted(block, genesis) && block.number > 0 && NoRepeats(bodies, currentBlock)
      modifies this`blocks, this`canonical, this`lookup, this`currentBlock, this`currentHeader, this`currentFastBlock
      ensures r.UnknownAncestor? <==> block.parent.header !in old(blocks)
      ensures r.Uncommitted? <==> block.parent.header in old(blocks) && !committed
      ensures block.parent.header in old(blocks) && committed ==>
        (r.Side? <==> !Wins(block, old(currentBlock), currentPreserve, blockPreserve, coin))
      ensures blocks == if r.UnknownAncestor? then old(blocks) else old(blocks) + {block}
      ensures !r.Canonical? ==>
        && canonical == old(canonical) && lookup == old(lookup) && currentBlock == old(currentBlock)
        && currentHeader == old(currentHeader) && currentFastBlock == old(currentFastBlock)
      ensures r.Canonical? ==>
        && currentBlock == block && lookup == LookupFor(bodies, block)
        && (Ok() <==> !StaleAbove(old(canonical), old(currentBlock), block))
      ensures SumDifficulty(currentBlock) >= SumDifficulty(old(currentBlock))
      ensures old(Whole(currentBlock)) && !r.UnknownAncestor? ==> Whole(block) && Whole(currentBlock) && !r.Failed?
    {
      if GetBlock(block.parent) == NoHash {
        return UnknownAncestor;
      }
      StoreCloses(blocks, genesis, block);
      blocks := blocks + {block};
      if !committed {
        return Uncommitted;
      }
      if !Wins(block, currentBlock, currentPreserve, blockPreserve, coin) {
        return Side;
      }
      var error := WriteKnownBlock(block);
      r := if error.Some? then Failed(error.value) else Canonical;
    }
  }

  /** The fork choice: the higher total difficulty, then the lower number, then the block to preserve or the coin. */
  predicate Wins(block: Header, current: Header, currentPreserve: bool, blockPreserve: bool, coin: bool) {
    var externTd, localTd := SumDifficulty(block), SumDifficulty(current);
    externTd > localTd
    || (externTd == localTd && (block.number < current.number
                                || (block.number == current.number && !currentPreserve && (blockPreserve || coin))))
  }

  lemma StoreCloses(blocks: set<Header>, g: Header, block: Header)
    requires Rooted(block, g) && block.number > 0 && block.parent.HashOf? && block.parent.header in blocks
    ensures Closed(blocks, g) ==> Closed(blocks + {block}, g)
  {
    if Closed(blocks, g) {
      forall h | h in blocks + {block}
        ensures StoredAt(blocks + {block}, g, h)
      {
        assert h in blocks ==> StoredAt(blocks, g, h);
      }
    }
  }

  /** How far the index reaches once the new branch but its top has been written. */
  ghost function Highest(oldBlock: Header, newBlock: Header, c: nat): nat {
    if newBlock.number >= c + 2 && oldBlock.number < newBlock.number then newBlock.number - 1 else oldBlock.number
  }

  /** The index once the new branch but its top has been written, if there is more to it than its top. */
  ghost predicate BranchWritten(was: Index, m: Index, newBlock: Header, c: nat) {
    if newBlock.number >= c + 2 then Overwritten(m, was, newBlock, c, newBlock.number - 1) else m == was
  }

  lemma Contiguous(was: Index, m: Index, oldBlock: Header, newBlock: Header, g: Header, c: nat)
    requires IndexOf(was, oldBlock, g) && Forks(oldBlock, newBlock, c) && BranchWritten(was, m, newBlock, c)
    ensures forall k: nat :: Read(m, k) == NoHash <==> Highest(oldBlock, newBlock, c) < k
  {
    forall k: nat
      ensures Read(m, k) == NoHash <==> Highest(oldBlock, newBlock, c) < k
    {
      assert IndexAt(was, oldBlock, k);
      if newBlock.number >= c + 2 {
        assert OverwrittenAt(m, was, newBlock, c, newBlock.number - 1, k);
      }
    }
  }

  /** The case in which entries above the new head survive: it is lower than the old head, and it or its parent is
      on the old chain. */
  predicate StaleAbove(canonical: Index, oldBlock: Header, newBlock: Header) {
    && newBlock.number < oldBlock.number
    && (newBlock.number == 0 || Read(canonical, newBlock.number - 1) == newBlock.parent)
  }

  /** A branch of at most one block, told from the old index. */
  lemma ShortBranch(was: Index, oldBlock: Header, newBlock: Header, g: Header, c: nat)
    requires IndexOf(was, oldBlock, g) && Rooted(newBlock, g) && Forks(oldBlock, newBlock, c)
    requires newBlock.number < oldBlock.number
    ensures newBlock.number < c + 2 <==> StaleAbove(was, oldBlock, newBlock)
  {
    var n := newBlock.number;
    if n > 0 {
      assert IndexAt(was, oldBlock, n - 1);
      assert newBlock.parent == HashOf(Ancestor(newBlock, n - 1));
      if n - 1 <= c {
        AncestorOfAncestor(oldBlock, g, c, n - 1);
        AncestorOfAncestor(newBlock, g, c, n - 1);
      } else {
        AncestorOfAncestor(oldBlock, g, n - 1, c + 1);
        AncestorOfAncestor(newBlock, g, n - 1, c + 1);
        assert Ancestor(oldBlock, n - 1) != Ancestor(newBlock, n - 1);
      }
    }
  }

  lemma IndexAdopts(was: Index, m: Index, cut: Index, oldBlock: Header, newBlock: Header, g: Header, c: nat)
    requires IndexOf(was, oldBlock, g) && Rooted(newBlock, g) && Forks(oldBlock, newBlock, c)
    requires BranchWritten(was, m, newBlock, c)
    requires var top := if newBlock.number >= c + 2 then newBlock.number - 1 else oldBlock.number;
      forall k: nat :: Read(cut, k) == if k <= top then Read(m, k) else NoHash
    ensures IndexOf(cut[newBlock.number := HashOf(newBlock)], newBlock, g) <==> !StaleAbove(was, oldBlock, newBlock)
  {
    var n := newBlock.number;
    var final := cut[n := HashOf(newBlock)];
    if n < oldBlock.number {
      ShortBranch(was, oldBlock, newBlock, g, c);
    }
    if StaleAbove(was, oldBlock, newBlock) {
      assert IndexAt(was, oldBlock, n + 1);
      assert !IndexAt(final, newBlock, n + 1);
    } else {
      forall k: nat
        ensures IndexAt(final, newBlock, k)
      {
        AdoptedAt(was, m, cut, oldBlock, newBlock, g, c, k);
      }
    }
  }

  lemma AdoptedAt(was: Index, m: Index, cut: Index, oldBlock: Header, newBlock: Header, g: Header, c: nat, k: nat)
    requires IndexOf(was, oldBlock, g) && Rooted(newBlock, g) && Forks(oldBlock, newBlock, c)
    requires BranchWritten(was, m, newBlock, c)
    requires var top := if newBlock.number >= c + 2 then newBlock.number - 1 else oldBlock.number;
      Read(cut, k) == if k <= top then Read(m, k) else NoHash
    requires newBlock.number >= c + 2 || oldBlock.number <= newBlock.number
    ensures IndexAt(cut[newBlock.number := HashOf(newBlock)], newBlock, k)
  {
    assert IndexAt(was, oldBlock, k);
    assert Ancestor(newBlock, newBlock.number) == newBlock;
    if newBlock.number >= c + 2 {
      assert OverwrittenAt(m, was, newBlock, c, newBlock.number - 1, k);
    }
    if k <= c {
      AncestorOfAncestor(oldBlock, g, c, k);
      AncestorOfAncestor(newBlock, g, c, k);
    }
  }

  lemma LookupAlgebra(base: Lookup, dropped: Lookup, added: Lookup, top: Lookup)
    requires base.Keys !! dropped.Keys
    ensures (base + dropped) + added - (dropped.Keys - added.Keys) + top == base + (added + top)
  {
  }

  /** The lookups of the new branch without its top. */
  function Added(bodies: Bodies, newBlock: Header, c: nat): Lookup {
    if newBlock.number >= c + 2 then EntriesAbove(bodies, Ancestor(newBlock, newBlock.number - 1), c) else map[]
  }

  lemma BranchLookups(bodies: Bodies, newBlock: Header, g: Header, c: nat)
    requires Rooted(newBlock, g) && g.parent == NoHash && c <= newBlock.number
    ensures LookupFor(bodies, newBlock)
      == LookupFor(bodies, Ancestor(newBlock, c))
         + (Added(bodies, newBlock, c) + Entries(bodies(newBlock), newBlock.number))
  {
    var e := Entries(bodies(newBlock), newBlock.number);
    EntriesSplit(bodies, newBlock, g, c);
    if newBlock.number > c {
      assert newBlock.parent.header == Ancestor(newBlock, newBlock.number - 1);
      assert EntriesAbove(bodies, newBlock, c) == Added(bodies, newBlock, c) + e;
    } else {
      assert Ancestor(newBlock, c) == newBlock;
      assert map[] + e == e;
    }
  }

  /** Dropping the old branch's lookups and writing the new branch's leaves the new chain's lookups. */
  lemma LookupAdopts(bodies: Bodies, oldBlock: Header, newBlock: Header, g: Header, c: nat)
    requires Rooted(oldBlock, g) && Rooted(newBlock, g) && g.parent == NoHash && Forks(oldBlock, newBlock, c)
    requires NoRepeats(bodies, oldBlock)
    ensures var added := Added(bodies, newBlock, c);
      var gone := EntriesAbove(bodies, oldBlock, c).Keys - added.Keys;
      LookupFor(bodies, oldBlock) + added - gone + Entries(bodies(newBlock), newBlock.number)
        == LookupFor(bodies, newBlock)
  {
    EntriesSplit(bodies, oldBlock, g, c);
    BranchIsApart(bodies, oldBlock, g, c);
    BranchLookups(bodies, newBlock, g, c);
    LookupAlgebra(LookupFor(bodies, Ancestor(oldBlock, c)), EntriesAbove(bodies, oldBlock, c),
                  Added(bodies, newBlock, c), Entries(bodies(newBlock), newBlock.number));
  }

  lemma IndexExtends(canonical: Index, head: Header, block: Header, g: Header)
    requires IndexOf(canonical, head, g) && Rooted(block, g) && g.parent == NoHash && block.parent == HashOf(head)
    ensures block.number == head.number + 1
    ensures IndexOf(canonical[block.number := HashOf(block)], block, g)
  {
    var m := canonical[block.number := HashOf(block)];
    forall n: nat
      ensures IndexAt(m, block, n)
    {
      assert IndexAt(canonical, head, n);
    }
  }

  /** A single heavier block below the old head leaves the old head's number behind: `a2` on `a1` is the head,
      `b` builds on the genesis. */
  lemma SingleLowerExample(g: Header, a1: Header, a2: Header, b: Header, canonical: Index)
    requires g.number == 0 && g.parent == NoHash && a1.parent == HashOf(g) && a1.number == 1
    requires a2.parent == HashOf(a1) && a2.number == 2 && b.parent == HashOf(g) && b.number == 1
    requires canonical == map[0 := HashOf(g), 1 := HashOf(a1), 2 := HashOf(a2)]
    requires b.difficulty > a1.difficulty + a2.difficulty
    ensures IndexOf(canonical, a2, g) && Rooted(b, g) && SumDifficulty(b) > SumDifficulty(a2)
    ensures StaleAbove(canonical, a2, b)
  {
    assert Rooted(g, g) && Rooted(a1, g);
    forall n: nat
      ensures IndexAt(canonical, a2, n)
    {
      assert n == 0 ==> Ancestor(a1, n) == g;
      assert n <= 1 ==> Ancestor(a2, n) == Ancestor(a1, n);
    }
    assert SumDifficulty(a2) == a2.difficulty + SumDifficulty(a1);
  }

  /** Blocks without transactions. */
  function NoTxs(h: Header): set<TxId> {
    {}
  }

  lemma {:induction false} NothingRepeats(h: Header)
    ensures NoRepeats(NoTxs, h)
  {
    if h.parent.HashOf? {
      NothingRepeats(h.parent.header);
    }
  }

  /** A run to that state: the number 2 still names `a2` when `b` is the head at number 1. */
  method SingleLowerRun(g: Header, a1: Header, a2: Header, b: Header) returns (c: BlockChain)
    requires g.number == 0 && g.parent == NoHash && a1.parent == HashOf(g) && a1.number == 1
    requires a2.parent == HashOf(a1) && a2.number == 2 && b.parent == HashOf(g) && b.number == 1
    requires b.difficulty > a1.difficulty + a2.difficulty && a1.difficulty > 0 && a2.difficulty > 0
    ensures c.currentBlock == b && !c.Ok()
  {
    c := new BlockChain(g, NoTxs);
    assert Rooted(g, g) && Rooted(a1, g) && Rooted(a2, g) && Rooted(b, g);
    NothingRepeats(g);
    NothingRepeats(a1);
    NothingRepeats(a2);
    assert SumDifficulty(a1) == a1.difficulty + SumDifficulty(g);
    assert SumDifficulty(a2) == a2.difficulty + SumDifficulty(a1);
    var r := c.WriteBlock(a1, true, false, false, false);
    assert r.Canonical? && c.Ok();
    r := c.WriteBlock(a2, true, false, false, false);
    assert r.Canonical? && c.Ok();
    assert Ancestor(a1, 0) == g && Ancestor(a2, 0) == g;
    assert IndexAt(c.canonical, a2, 0);
    r := c.WriteBlock(b, true, false, false, false);
  }

  method SingleLowerInput() returns (c: BlockChain)
    ensures !c.Ok()
  {
    var g := Header(NoHash, 0, 1, 0);
    var a1, b := Header(HashOf(g), 1, 1, 0), Header(HashOf(g), 1, 3, 0);
    c := SingleLowerRun(g, a1, Header(HashOf(a1), 2, 1, 0), b);
  }
}
