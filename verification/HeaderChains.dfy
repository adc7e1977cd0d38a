/** The header chain: stored headers, total difficulties, the canonical index and the head. */
module HeaderChains {
  import opened Chains

  datatype Status = NonStatTy | SideStatTy | CanonStatTy

  datatype WriteResult = UnknownAncestor | Written(status: Status, ignored: nat, imported: nat)

  ghost predicate FollowsOn(p: Header, h: Header) {
    h.parent == HashOf(p) && h.number == p.number + 1
  }

  /** A validated batch: each header follows the one before it and adds difficulty. */
  ghost predicate LinkedBatch(batch: seq<Header>) {
    && (batch != [] && batch[0].parent.HashOf? ==> FollowsOn(batch[0].parent.header, batch[0]))
    && (forall i :: 0 < i < |batch| ==> FollowsOn(batch[i - 1], batch[i]))
    && (forall i :: 0 <= i < |batch| ==> batch[i].difficulty > 0)
  }

  ghost predicate BatchOn(batch: seq<Header>, p: Header) {
    batch != [] && batch[0].parent == HashOf(p) && LinkedBatch(batch)
  }

  ghost function AsSet(s: seq<Header>): set<Header> {
    set h | h in s
  }

  function Last(batch: seq<Header>): Header
    requires batch != []
  {
    batch[|batch| - 1]
  }

  ghost predicate TdsOk(headers: set<Header>, tds: map<Header, nat>) {
    tds.Keys == headers && forall h :: h in tds ==> tds[h] == SumDifficulty(h)
  }

  /** No stored header builds on `head`. */
  ghost predicate Childless(headers: set<Header>, head: Header) {
    forall h :: h in headers ==> h.parent != HashOf(head)
  }

  /** What a batch on `p` looks like: rooted, numbered from `p` on, with difficulties that add up. */
  lemma {:induction false} BatchFacts(batch: seq<Header>, p: Header, g: Header, i: nat)
    requires BatchOn(batch, p) && Rooted(p, g) && i < |batch|
    ensures Rooted(batch[i], g) && batch[i].number == p.number + 1 + i
    ensures SumDifficulty(batch[i])
         == batch[i].difficulty + if i == 0 then SumDifficulty(p) else SumDifficulty(batch[i - 1])
    ensures FollowsOn(if i == 0 then p else batch[i - 1], batch[i])
  {
    if i > 0 {
      BatchFacts(batch, p, g, i - 1);
      assert FollowsOn(batch[i - 1], batch[i]);
    }
  }

  /** The ancestors of a batch's header: those of `p` up to `p`, then the batch itself. */
  lemma {:induction false} BatchAncestors(batch: seq<Header>, p: Header, g: Header, i: nat, n: nat)
    requires BatchOn(batch, p) && Rooted(p, g) && i < |batch| && n <= p.number + 1 + i
    ensures Ancestor(batch[i], n) == if n <= p.number then Ancestor(p, n) else batch[n - p.number - 1]
  {
    BatchFacts(batch, p, g, i);
    if n < batch[i].number && i > 0 {
      BatchAncestors(batch, p, g, i - 1, n);
    }
  }

  lemma {:induction false} DifficultyGrows(batch: seq<Header>, p: Header, g: Header, i: nat, j: nat)
    requires BatchOn(batch, p) && Rooted(p, g) && i <= j < |batch|
    ensures SumDifficulty(batch[i]) <= SumDifficulty(batch[j])
  {
    if i < j {
      DifficultyGrows(batch, p, g, i, j - 1);
      BatchFacts(batch, p, g, j);
    }
  }

  /** The known headers of a batch come first. */
  lemma KnownFirst(headers: set<Header>, batch: seq<Header>, p: Header, g: Header, i: nat)
    requires Closed(headers, g) && p in headers && BatchOn(batch, p) && 0 < i < |batch| && batch[i] in headers
    ensures batch[i - 1] in headers
  {
    assert StoredAt(headers, g, p);
    BatchFacts(batch, p, g, i);
    assert StoredAt(headers, g, batch[i]);
  }

  lemma BatchCloses(headers: set<Header>, batch: seq<Header>, p: Header, g: Header)
    requires Closed(headers, g) && p in headers && BatchOn(batch, p)
    ensures Closed(headers + AsSet(batch), g)
  {
    assert StoredAt(headers, g, p);
    forall h | h in headers + AsSet(batch)
      ensures StoredAt(headers + AsSet(batch), g, h)
    {
      if h in headers {
        assert StoredAt(headers, g, h);
      } else {
        var i :| 0 <= i < |batch| && batch[i] == h;
        BatchFacts(batch, p, g, i);
        assert i > 0 ==> batch[i - 1] in batch;
      }
    }
  }

  /** A batch that does not beat the head's difficulty does not build on the head. */
  lemma SideChildless(headers: set<Header>, batch: seq<Header>, p: Header, g: Header, head: Header)
    requires Closed(headers, g) && p in headers && BatchOn(batch, p) && Childless(headers, head)
    requires SumDifficulty(Last(batch)) <= SumDifficulty(head)
    ensures Childless(headers + AsSet(batch), head)
  {
    assert StoredAt(headers, g, p);
    forall h | h in AsSet(batch)
      ensures h.parent != HashOf(head)
    {
      var i :| 0 <= i < |batch| && batch[i] == h;
      BatchFacts(batch, p, g, i);
      DifficultyGrows(batch, p, g, i, |batch| - 1);
    }
  }

  /** Nothing builds on the last header of a batch if that header is new. */
  lemma NewHeadChildless(headers: set<Header>, batch: seq<Header>, p: Header, g: Header)
    requires Closed(headers, g) && p in headers && BatchOn(batch, p) && Last(batch) !in headers
    ensures Childless(headers + AsSet(batch), Last(batch))
  {
    assert StoredAt(headers, g, p);
    BatchFacts(batch, p, g, |batch| - 1);
    forall h | h in headers + AsSet(batch)
      ensures h.parent != HashOf(Last(batch))
    {
      if h in headers {
        assert StoredAt(headers, g, h);
      } else {
        var i :| 0 <= i < |batch| && batch[i] == h;
        BatchFacts(batch, p, g, i);
      }
    }
  }

  /** `m` is the index that a fork choice for the batch leaves behind: the ancestors of `p`, then the batch where
      it was marked, otherwise what was there. */
  ghost predicate Remarked(m: Index, canonical: Index, p: Header, batch: seq<Header>, marked: bool) {
    forall n :: RemarkedAt(m, canonical, p, batch, marked, n)
  }

  ghost predicate RemarkedAt(m: Index, canonical: Index, p: Header, batch: seq<Header>, marked: bool, n: nat) {
    Read(m, n) ==
      if n <= p.number then HashOf(Ancestor(p, n))
      else if n > p.number + |batch| then NoHash
      else if marked then HashOf(batch[n - p.number - 1])
      else Read(canonical, n)
  }

  /** The new index is right if the batch was marked, or if its last header was canonical already. */
  lemma RemarkedIsIndex(m: Index, canonical: Index, head: Header, p: Header, batch: seq<Header>, marked: bool,
                        g: Header)
    requires BatchOn(batch, p) && Rooted(p, g) && IndexOf(canonical, head, g)
    requires Remarked(m, canonical, p, batch, marked)
    ensures IndexOf(m, Last(batch), g) <==> marked || Read(canonical, Last(batch).number) == HashOf(Last(batch))
  {
    var last, top := Last(batch), |batch| - 1;
    BatchFacts(batch, p, g, top);
    assert RemarkedAt(m, canonical, p, batch, marked, last.number);
    if marked || Read(canonical, last.number) == HashOf(last) {
      forall n: nat
        ensures IndexAt(m, last, n)
      {
        assert RemarkedAt(m, canonical, p, batch, marked, n);
        if n <= last.number {
          BatchAncestors(batch, p, g, top, n);
          if !marked && n > p.number {
            assert IndexAt(canonical, head, last.number) && IndexAt(canonical, head, n);
            AncestorOfAncestor(head, g, last.number, n);
          }
        }
      }
    } else {
      assert !IndexAt(m, last, last.number);
    }
  }

  /** The known headers among the first `i` of a batch come before the `n` new ones. */
  ghost predicate KnownThenNew(stored: set<Header>, batch: seq<Header>, i: nat, n: nat)
    requires n <= i <= |batch|
  {
    forall j :: 0 <= j < i ==> (batch[j] in stored <==> j < i - n)
  }

  /** The insertion loop after `i` headers: known ones came first, the others are staged. */
  ghost predicate Staged(stored: set<Header>, now: set<Header>, tds: map<Header, nat>, batch: seq<Header>, i: nat,
                         inserted: seq<Header>, firstInserted: int) {
    && i <= |batch| && now == stored + AsSet(batch[..i]) && TdsOk(now, tds)
    && |inserted| <= i && inserted == batch[i - |inserted|..i]
    && firstInserted == (if inserted == [] then -1 else i - |inserted|)
    && KnownThenNew(stored, batch, i, |inserted|)
  }

  lemma StageNew(stored: set<Header>, now: set<Header>, tds: map<Header, nat>, batch: seq<Header>, i: nat,
                 inserted: seq<Header>, firstInserted: int, newTD: nat)
    requires Staged(stored, now, tds, batch, i, inserted, firstInserted) && i < |batch|
    requires batch[i] !in stored && newTD == SumDifficulty(batch[i])
    ensures Staged(stored, now + {batch[i]}, tds[batch[i] := newTD], batch, i + 1, inserted + [batch[i]],
                   if firstInserted < 0 then i else firstInserted)
  {
    assert batch[..i + 1] == batch[..i] + [batch[i]];
    assert AsSet(batch[..i + 1]) == AsSet(batch[..i]) + {batch[i]};
  }

  lemma StageKnown(stored: set<Header>, now: set<Header>, tds: map<Header, nat>, batch: seq<Header>, i: nat,
                   inserted: seq<Header>, firstInserted: int, p: Header, g: Header)
    requires Staged(stored, now, tds, batch, i, inserted, firstInserted) && i < |batch| && batch[i] in stored
    requires Closed(stored, g) && p in stored && BatchOn(batch, p)
    ensures Staged(stored, now, tds, batch, i + 1, inserted, firstInserted)
  {
    if i > 0 {
      KnownFirst(stored, batch, p, g, i);
    }
    assert inserted == [];
    assert AsSet(batch[..i + 1]) == AsSet(batch[..i]) + {batch[i]};
  }

  lemma InsertedIsNew(headers: set<Header>, batch: seq<Header>, inserted: seq<Header>)
    requires batch != [] && |inserted| <= |batch|
    requires forall i :: 0 <= i < |batch| ==> (batch[i] in headers <==> i < |batch| - |inserted|)
    ensures inserted != [] <==> exists h :: h in batch && h !in headers
    ensures inserted != [] <==> Last(batch) !in headers
    ensures batch[0] !in headers ==> |inserted| == |batch|
  {
    if inserted != [] {
      assert Last(batch) in batch;
    }
  }

  ghost function FromHeight(headers: set<Header>, n: nat): set<Header> {
    set h | h in headers && n <= h.number
  }

  lemma FewerAbove(headers: set<Header>, n: nat)
    requires exists h :: h in headers && h.number == n
    ensures |FromHeight(headers, n + 1)| < |FromHeight(headers, n)|
  {
    var h :| h in headers && h.number == n;
    assert FromHeight(headers, n + 1) <= FromHeight(headers, n) - {h};
    ProperSubset(FromHeight(headers, n + 1), FromHeight(headers, n), h);
  }

  lemma ProperSubset(a: set<Header>, b: set<Header>, x: Header)
    requires a <= b - {x} && x in b
    ensures |a| < |b|
  {
    var rest := b - {x} - a;
    assert b == a + rest + {x};
    assert |a + rest| == |a| + |rest|;
  }

  /** Exactly the heights above `n` that hold something are in `gone`. */
  ghost predicate Emptied(headers: set<Header>, gone: set<nat>, n: nat) {
    && (forall k :: k in gone ==> n < k)
    && (forall h :: h in headers && n < h.number ==> h.number in gone)
  }

  /** There is no gap in the heights at which something is stored. */
  lemma NoneAbove(headers: set<Header>, g: Header, n: nat)
    requires Closed(headers, g) && forall h :: h in headers ==> h.number != n
    ensures forall h :: h in headers ==> h.number < n
  {
    forall h | h in headers
      ensures h.number < n
    {
      if n <= h.number {
        AncestorsStored(headers, g, h, n);
        assert StoredAt(headers, g, h);
        AncestorRooted(h, g, n);
        assert false;
      }
    }
  }

  lemma EmptiedStep(headers: set<Header>, gone: set<nat>, n: nat)
    requires Emptied(headers, gone, n) && n > 0
    ensures Emptied(headers, gone + {n}, n - 1)
  {
  }

  /** The parent of a stored ancestor `h` of `was` is stored, and is the ancestor below it. */
  lemma ParentFacts(headers: set<Header>, g: Header, was: Header, h: Header)
    requires Closed(headers, g) && was in headers && h in headers && 0 < h.number <= was.number
    requires h == Ancestor(was, h.number)
    ensures h.parent.HashOf? && h.parent.header in headers && h.parent.header.number == h.number - 1
    ensures h.parent.header == Ancestor(was, h.number - 1)
  {
    assert StoredAt(headers, g, h) && StoredAt(headers, g, was);
    AncestorOfAncestor(was, g, h.number, h.number - 1);
  }

  function Spared(headers: set<Header>, gone: set<nat>): set<Header> {
    set h | h in headers && h.number !in gone
  }

  /** Deleting everything above height `n` leaves a header chain whose head is the old head's ancestor there. */
  lemma CutFacts(headers: set<Header>, tds: map<Header, nat>, canonical: Index, g: Header, head: Header,
                 gone: set<nat>, n: nat)
    requires Closed(headers, g) && TdsOk(headers, tds) && head in headers && IndexOf(canonical, head, g)
    requires Emptied(headers, gone, n) && n < head.number
    ensures var kept, top := Spared(headers, gone), Ancestor(head, n);
      && kept == (set h | h in headers && h.number <= n)
      && Closed(kept, g) && TdsOk(kept, map h | h in tds && h.number !in gone :: tds[h])
      && top in kept && top.number == n && Childless(kept, top)
      && IndexOf(canonical - gone, top, g)
  {
    var kept, top := Spared(headers, gone), Ancestor(head, n);
    AncestorsStored(headers, g, head, n);
    AncestorRooted(head, g, n);
    forall h | h in kept
      ensures StoredAt(kept, g, h)
    {
      assert StoredAt(headers, g, h);
    }
    forall h | h in kept
      ensures h.parent != HashOf(top)
    {
      assert StoredAt(headers, g, h);
    }
    forall k: nat
      ensures IndexAt(canonical - gone, top, k)
    {
      assert IndexAt(canonical, head, k);
      if k <= head.number {
        AncestorsStored(headers, g, head, k);
        AncestorRooted(head, g, k);
      }
      if k <= n {
        AncestorOfAncestor(head, g, n, k);
      }
    }
  }

  lemma ParentOf(headers: set<Header>, g: Header, h: Header)
    requires Closed(headers, g) && h in headers && h.number > 0
    ensures h.parent.HashOf? && h.parent.header in headers && h.parent.header.number == h.number - 1
  {
    assert StoredAt(headers, g, h);
  }

  lemma StepUp(h: Header, ancestor: nat, canonical: Index)
    requires ancestor > 0 && h.parent.HashOf? && Read(canonical, h.number) != HashOf(h)
    ensures Walk(HashOf(h), ancestor) == Walk(h.parent, ancestor - 1)
    ensures Off(h, canonical) == 1 + Off(h.parent.header, canonical)
  {
  }

  /** How many parents up the first canonical ancestor is. */
  function Off(h: Header, canonical: Index): nat {
    if Read(canonical, h.number) == HashOf(h) || h.parent.NoHash? then 0 else 1 + Off(h.parent.header, canonical)
  }

  predicate ForkChoice(newTD: nat, localTD: nat, lastNumber: nat, head: nat, coin: bool) {
    newTD > localTD || (newTD == localTD && (lastNumber < head || (lastNumber == head && coin)))
  }

  class HeaderChain {
    const genesis: Header
    var headers: set<Header>
    var tds: map<Header, nat>
    var canonical: Index
    var currentHeader: Header

    /** Everything stored hangs together and the canonical index is the head's ancestor chain. */
    ghost predicate Ok()
      reads this
    {
      && Closed(headers, genesis) && TdsOk(headers, tds)
      && currentHeader in headers && Childless(headers, currentHeader)
      && IndexOf(canonical, currentHeader, genesis)
    }

    constructor (genesis: Header)
      requires genesis.number == 0 && genesis.parent == NoHash
      ensures Ok() && this.genesis == genesis && headers == {genesis} && currentHeader == genesis
    {
      this.genesis, headers, tds := genesis, {genesis}, map[genesis := genesis.difficulty];
      canonical, currentHeader := map[0 := HashOf(genesis)], genesis;
    }

    function GetHeader(hash: Hash): Hash
      reads this`headers
    {
      if hash.HashOf? && hash.header in headers then hash else NoHash
    }

    /** Rewrites stale canonical entries from `p` downwards until one is right. */
    method RestoreBack(m0: Index, p: Header) returns (m: Index)
      requires Closed(headers, genesis) && p in headers && IndexOf(canonical, currentHeader, genesis)
      requires forall k :: 0 <= k <= p.number ==> Read(m0, k) == Read(canonical, k)
      ensures forall k: nat :: Read(m, k) == if k <= p.number then HashOf(Ancestor(p, k)) else Read(m0, k)
    {
      m := m0;
      var cur := p;
      assert StoredAt(headers, genesis, p);
      while Read(canonical, cur.number) != HashOf(cur)
        invariant cur in headers && cur.number <= p.number && cur == Ancestor(p, cur.number)
        invariant forall k: nat ::
          Read(m, k) == if cur.number < k <= p.number then HashOf(Ancestor(p, k)) else Read(m0, k)
        decreases cur.number
      {
        m := m[cur.number := HashOf(cur)];
        StepDown(cur, p);
        cur := cur.parent.header;
      }
      RestoredBelow(cur, p);
    }

    lemma StepDown(cur: Header, p: Header)
      requires Closed(headers, genesis) && cur in headers && p in headers && cur.number <= p.number
      requires IndexOf(canonical, currentHeader, genesis) && Read(canonical, cur.number) != HashOf(cur)
      requires cur == Ancestor(p, cur.number)
      ensures cur.parent.HashOf? && cur.parent.header in headers && cur.parent.header.number + 1 == cur.number
      ensures cur.parent.header == Ancestor(p, cur.parent.header.number)
    {
      assert StoredAt(headers, genesis, cur) && StoredAt(headers, genesis, p);
      assert IndexAt(canonical, currentHeader, 0);
      AncestorRooted(currentHeader, genesis, 0);
      assert cur.number > 0;
      AncestorOfAncestor(p, genesis, cur.number, cur.number - 1);
    }

    lemma RestoredBelow(cur: Header, p: Header)
      requires Closed(headers, genesis) && p in headers && cur.number <= p.number && cur == Ancestor(p, cur.number)
      requires IndexOf(canonical, currentHeader, genesis) && Read(canonical, cur.number) == HashOf(cur)
      ensures forall k :: 0 <= k <= cur.number ==> Read(canonical, k) == HashOf(Ancestor(p, k))
    {
      assert StoredAt(headers, genesis, p);
      assert IndexAt(canonical, currentHeader, cur.number);
      forall k | 0 <= k <= cur.number
        ensures Read(canonical, k) == HashOf(Ancestor(p, k))
      {
        assert IndexAt(canonical, currentHeader, k);
        AncestorOfAncestor(currentHeader, genesis, cur.number, k);
        AncestorOfAncestor(p, genesis, cur.number, k);
      }
    }

    /** Stores the unknown headers of a batch with their total difficulties. */
    method StoreBatch(batch: seq<Header>, ptd: nat) returns (newTD: nat, inserted: seq<Header>, firstInserted: int)
      requires Closed(headers, genesis) && TdsOk(headers, tds) && batch != [] && LinkedBatch(batch)
      requires batch[0].parent.HashOf? && batch[0].parent.header in headers
      requires ptd == SumDifficulty(batch[0].parent.header)
      modifies this`headers, this`tds
      ensures headers == old(headers) + AsSet(batch) && TdsOk(headers, tds)
      ensures newTD == SumDifficulty(Last(batch))
      ensures |inserted| <= |batch| && inserted == batch[|batch| - |inserted|..]
      ensures firstInserted == if inserted == [] then -1 else |batch| - |inserted|
      ensures forall i :: 0 <= i < |batch| ==> (batch[i] in old(headers) <==> i < |batch| - |inserted|)
    {
      ghost var p := batch[0].parent.header;
      assert StoredAt(headers, genesis, p);
      newTD, inserted, firstInserted := ptd, [], -1;
      var newHeaders: set<Header>, newTds: map<Header, nat> := headers, tds;
      assert AsSet(batch[..0]) == {};
      for i := 0 to |batch|
        invariant headers == old(headers) && tds == old(tds)
        invariant newTD == if i == 0 then ptd else SumDifficulty(batch[i - 1])
        invariant Staged(headers, newHeaders, newTds, batch, i, inserted, firstInserted)
      {
        var header := batch[i];
        BatchFacts(batch, p, genesis, i);
        newTD := newTD + header.difficulty;
        if header !in headers {
          StageNew(headers, newHeaders, newTds, batch, i, inserted, firstInserted, newTD);
          newTds := newTds[header := newTD];
          newHeaders := newHeaders + {header};
          inserted := inserted + [header];
          if firstInserted < 0 {
            firstInserted := i;
          }
        } else {
          StageKnown(headers, newHeaders, newTds, batch, i, inserted, firstInserted, p, genesis);
        }
      }
      assert batch[..|batch|] == batch;
      headers, tds := newHeaders, newTds;
    }

    /** Makes the batch canonical, as far as the source marks it. */
    method Reindex(batch: seq<Header>, inserted: seq<Header>, firstInserted: int, ghost p: Header)
      requires Closed(headers, genesis) && p in headers && IndexOf(canonical, currentHeader, genesis)
      requires BatchOn(batch, p)
      requires |inserted| <= |batch| && inserted == batch[|batch| - |inserted|..]
      requires firstInserted == if inserted == [] then -1 else |batch| - |inserted|
      requires p == currentHeader ==> inserted == batch
      modifies this`canonical
      ensures Remarked(canonical, old(canonical), p, batch, inserted != [])
    {
      ghost var was, known, marked := canonical, |batch| - |inserted|, inserted != [];
      assert StoredAt(headers, genesis, p);
      forall i | 0 <= i < |batch|
        ensures batch[i].number == p.number + 1 + i
      {
        BatchFacts(batch, p, genesis, i);
      }
      var m := canonical;
      if batch[0].parent != HashOf(currentHeader) {
        forall k: nat
          ensures Read(canonical, k) == NoHash <==> currentHeader.number < k
        {
          assert IndexAt(canonical, currentHeader, k);
        }
        m := DeleteAbove(canonical, batch[|batch| - 1].number, currentHeader.number);
        m := RestoreBack(m, batch[0].parent.header);
        var first := if firstInserted < 0 then 0 else firstInserted;
        m := Mark(m, batch[..first], batch[0].number);
      }
      m := Mark(m, inserted, batch[0].number + known);
      forall n: nat
        ensures RemarkedAt(m, was, p, batch, marked, n)
      {
        assert IndexAt(canonical, currentHeader, n);
      }
      canonical := m;
    }

    /** writeHeaders, for a validated batch and an import that is not interrupted; `coin` breaks ties. */
    method WriteHeaders(batch: seq<Header>, coin: bool) returns (r: WriteResult)
      requires Ok() && LinkedBatch(batch)
      modifies this`headers, this`tds, this`canonical, this`currentHeader
      ensures r.UnknownAncestor? <==> batch != [] && old(GetHeader(batch[0].parent)) == NoHash
      ensures r.UnknownAncestor? || batch == [] ==>
        headers == old(headers) && tds == old(tds) && canonical == old(canonical) && currentHeader == old(currentHeader)
      ensures r.Written? && batch != [] ==>
        var newTD, localTD := SumDifficulty(Last(batch)), SumDifficulty(old(currentHeader));
        var reorg := ForkChoice(newTD, localTD, Last(batch).number, old(currentHeader).number, coin);
        var grew := exists h :: h in batch && h !in old(headers);
        && headers == old(headers) + AsSet(batch) && TdsOk(headers, tds) && Closed(headers, genesis)
        && currentHeader == (if reorg then Last(batch) else old(currentHeader))
        && (!reorg ==> canonical == old(canonical))
        && (grew ==> Ok())
        && (IndexOf(canonical, currentHeader, genesis) <==>
              !reorg || grew || Read(old(canonical), Last(batch).number) == HashOf(Last(batch)))
        && (r.status == NonStatTy <==> !grew) && (r.status == CanonStatTy <==> reorg && grew)
      ensures SumDifficulty(currentHeader) >= SumDifficulty(old(currentHeader))
    {
      if batch == [] {
        return Written(NonStatTy, 0, 0);
      }
      var parent := GetHeader(batch[0].parent);
      if parent == NoHash {
        return UnknownAncestor;
      }
      ghost var p, stored := parent.header, headers;
      assert StoredAt(headers, genesis, p);
      var newTD, inserted, firstInserted := StoreBatch(batch, tds[parent.header]);
      var last := batch[|batch| - 1];
      var head, localTD := currentHeader.number, tds[currentHeader];
      var status := SideStatTy;
      BatchCloses(stored, batch, p, genesis);
      InsertedIsNew(stored, batch, inserted);
      var reorg := ForkChoice(newTD, localTD, last.number, head, coin);
      if reorg {
        Reindex(batch, inserted, firstInserted, p);
        RemarkedIsIndex(canonical, old(canonical), currentHeader, p, batch, inserted != [], genesis);
        currentHeader := last;
        status := CanonStatTy;
        if inserted != [] {
          NewHeadChildless(stored, batch, p, genesis);
        }
      } else {
        SideChildless(stored, batch, p, genesis, currentHeader);
      }
      if |inserted| == 0 {
        status := NonStatTy;
      }
      return Written(status, |batch| - |inserted|, |inserted|);
    }

    /** The numbers above `num` at which something is stored, found by counting up to the first gap. */
    method NumbersAbove(num: nat) returns (nums: set<nat>)
      requires Closed(headers, genesis)
      ensures Emptied(headers, nums, num)
    {
      nums := {};
      var n: nat := num + 1;
      while exists h :: h in headers && h.number == n
        invariant num < n && forall k :: k in nums <==> num < k < n
        decreases |FromHeight(headers, n)|
      {
        FewerAbove(headers, n);
        nums := nums + {n};
        n := n + 1;
      }
      NoneAbove(headers, genesis, n);
    }

    /** SetHead: walks the head down to `head`, then deletes everything stored above it. */
    method SetHead(head: nat)
      requires Ok()
      modifies this`headers, this`tds, this`canonical, this`currentHeader
      ensures Ok()
      ensures var old0 := old(currentHeader);
        if old0.number <= head then
          headers == old(headers) && canonical == old(canonical) && currentHeader == old0
        else
          && currentHeader == Ancestor(old0, head) && currentHeader.number == head
          && headers == set h | h in old(headers) && h.number <= head
      ensures var top := if head < old(currentHeader).number then head else old(currentHeader).number;
        (forall h :: h in headers ==> h.number <= top) <==>
        head < old(currentHeader).number || forall h :: h in old(headers) ==> h.number <= top
    {
      ghost var was := currentHeader;
      var gone := Rewind(head);
      if currentHeader == was {
        assert Spared(headers, {}) == headers;
        assert canonical - {} == canonical;
      } else {
        CutFacts(headers, tds, canonical, genesis, was, gone, head);
      }
      headers, tds := Spared(headers, gone), map h | h in tds && h.number !in gone :: tds[h];
      canonical := canonical - gone;
    }

    /** The loop of SetHead: moves the head down and collects the heights to delete. */
    method Rewind(head: nat) returns (gone: set<nat>)
      requires Ok()
      modifies this`currentHeader
      ensures var was := old(currentHeader);
        if was.number <= head then currentHeader == was && gone == {}
        else currentHeader == Ancestor(was, head) && currentHeader.number == head && Emptied(headers, gone, head)
    {
      ghost var was := currentHeader;
      var origin := true;
      gone := {};
      while currentHeader.number > head
        invariant currentHeader in headers && currentHeader.number <= was.number
        invariant currentHeader == Ancestor(was, currentHeader.number)
        invariant origin ==> gone == {} && currentHeader == was
        invariant !origin ==> head <= currentHeader.number < was.number && Emptied(headers, gone, currentHeader.number)
        decreases currentHeader.number
      {
        var hdr := currentHeader;
        var num := hdr.number;
        ParentFacts(headers, genesis, was, hdr);
        var parent := GetHeader(hdr.parent);
        currentHeader := if parent == NoHash then genesis else parent.header;
        if origin {
          gone := NumbersAbove(num);
          origin := false;
        }
        EmptiedStep(headers, gone, num);
        gone := gone + {num};
      }
    }

    /** GetAncestor: the `ancestor0`-th ancestor of a block, through the canonical index once that is reached.
        `budget0` bounds the blocks checked one by one before. */
    method GetAncestor(hash0: Hash, number0: nat, ancestor0: nat, budget0: nat)
      returns (found: Hash, at: nat, budget: nat)
      requires Ok() && hash0.HashOf? && hash0.header.number == number0
      ensures found != NoHash ==> found == Walk(hash0, ancestor0) && at == number0 - ancestor0
      ensures ancestor0 > number0 ==> found == NoHash && budget == budget0
      ensures ancestor0 == 1 <= number0 ==>
        budget == budget0 && (found != NoHash <==> hash0.header in headers)
      ensures ancestor0 != 1 && ancestor0 <= number0 && hash0.header in headers ==>
        var steps := var off := Off(hash0.header, canonical); if off < ancestor0 then off else ancestor0;
        if steps <= budget0 then found != NoHash && budget == budget0 - steps else found == NoHash && budget == 0
      ensures 1 < ancestor0 <= number0 && hash0.header !in headers ==>
        found == NoHash && budget == if budget0 == 0 then 0 else budget0 - 1
    {
      if ancestor0 > number0 {
        return NoHash, 0, budget0;
      }
      if ancestor0 == 1 {
        var header := GetHeader(hash0);
        if header != NoHash {
          ParentOf(headers, genesis, hash0.header);
          return header.header.parent, number0 - 1, budget0;
        }
        return NoHash, 0, budget0;
      }
      found, at, budget := DescendTo(hash0, number0, ancestor0, budget0);
    }

    /** The loop of GetAncestor. */
    method DescendTo(hash0: Hash, number0: nat, ancestor0: nat, budget0: nat)
      returns (found: Hash, at: nat, budget: nat)
      requires Ok() && hash0.HashOf? && hash0.header.number == number0 && ancestor0 <= number0
      ensures found != NoHash ==> found == Walk(hash0, ancestor0) && at == number0 - ancestor0
      ensures hash0.header in headers ==>
        var steps := var off := Off(hash0.header, canonical); if off < ancestor0 then off else ancestor0;
        if steps <= budget0 then found != NoHash && budget == budget0 - steps else found == NoHash && budget == 0
      ensures ancestor0 > 0 && hash0.header !in headers ==>
        found == NoHash && budget == if budget0 == 0 then 0 else budget0 - 1
    {
      var hash, number, ancestor := hash0, number0, ancestor0;
      budget := budget0;
      while ancestor != 0
        invariant hash.HashOf? && hash.header.number == number && ancestor <= number
        invariant if hash0.header in headers then hash.header in headers else hash == hash0 && ancestor == ancestor0
        invariant budget + ancestor0 == budget0 + ancestor && number0 - ancestor0 == number - ancestor
        invariant Walk(hash, ancestor) == Walk(hash0, ancestor0)
        invariant hash0.header in headers ==>
          Off(hash.header, canonical) + budget0 == Off(hash0.header, canonical) + budget
        decreases ancestor
      {
        if Read(canonical, number) == hash {
          var ancestorHash := Read(canonical, number - ancestor);
          if Read(canonical, number) == hash {
            CanonicalWalk(hash.header, ancestor);
            number := number - ancestor;
            return ancestorHash, number, budget;
          }
        }
        if hash.header in headers {
          ParentOf(headers, genesis, hash.header);
          StepUp(hash.header, ancestor, canonical);
        }
        if budget == 0 {
          return NoHash, 0, budget;
        }
        budget := budget - 1;
        ancestor := ancestor - 1;
        var header := GetHeader(hash);
        if header == NoHash {
          return NoHash, 0, budget;
        }
        hash := hash.header.parent;
        number := number - 1;
      }
      return hash, number, budget;
    }

    /** Below a canonical block the index and the parent walk agree. */
    lemma CanonicalWalk(h: Header, ancestor: nat)
      requires Ok() && Read(canonical, h.number) == HashOf(h) && ancestor <= h.number
      ensures h in headers && Off(h, canonical) == 0
      ensures Read(canonical, h.number - ancestor) == Walk(HashOf(h), ancestor) != NoHash
    {
      assert IndexAt(canonical, currentHeader, h.number) && IndexAt(canonical, currentHeader, h.number - ancestor);
      AncestorsStored(headers, genesis, currentHeader, h.number);
      assert StoredAt(headers, genesis, h);
      AncestorOfAncestor(currentHeader, genesis, h.number, h.number - ancestor);
      WalkIsAncestor(h, genesis, ancestor);
    }
  }

  /** Marks consecutive headers as canonical. */
  method Mark(m0: Index, hs: seq<Header>, ghost first: nat) returns (m: Index)
    requires forall i :: 0 <= i < |hs| ==> hs[i].number == first + i
    ensures forall k: nat :: Read(m, k) == if first <= k < first + |hs| then HashOf(hs[k - first]) else Read(m0, k)
  {
    m := m0;
    for i := 0 to |hs|
      invariant forall k: nat :: Read(m, k) == if first <= k < first + i then HashOf(hs[k - first]) else Read(m0, k)
    {
      var n: nat := hs[i].number;
      assert n == first + i;
      ghost var was := m;
      m := m[n := HashOf(hs[i])];
      assert forall k: nat :: Read(m, k) == if k == n then HashOf(hs[i]) else Read(was, k);
    }
  }

  /** Re-importing a known header of equal difficulty may move the head without marking it: `a` and `b` share the
      genesis as parent, `a` is the head, and the coin favours `b`. */
  lemma KnownTieExample(g: Header, a: Header, b: Header, canonical: Index)
    requires g.number == 0 && g.parent == NoHash && a != b && a.difficulty == b.difficulty > 0
    requires FollowsOn(g, a) && FollowsOn(g, b) && canonical == map[0 := HashOf(g), 1 := HashOf(a)]
    ensures Closed({g, a, b}, g) && Childless({g, a, b}, a) && IndexOf(canonical, a, g) && LinkedBatch([b])
    ensures ForkChoice(SumDifficulty(b), SumDifficulty(a), b.number, a.number, true)
    ensures Read(canonical, b.number) != HashOf(b)
  {
    assert Rooted(g, g);
    assert Rooted(a, g) && Rooted(b, g);
    forall n: nat
      ensures IndexAt(canonical, a, n)
    {
      assert n == 0 ==> Ancestor(a, n) == g;
    }
  }

  /** A batch that does not beat the head leaves a side chain. */
  method ImportSide(c: HeaderChain, batch: seq<Header>)
    requires c.Ok() && BatchOn(batch, c.genesis) && SumDifficulty(Last(batch)) < SumDifficulty(c.currentHeader)
    modifies c`headers, c`tds, c`canonical, c`currentHeader
    ensures Closed(c.headers, c.genesis) && c.headers == old(c.headers) + AsSet(batch)
    ensures c.currentHeader == old(c.currentHeader) && c.canonical == old(c.canonical)
    ensures (exists h :: h in batch && h !in old(c.headers)) ==> c.Ok()
  {
    var r := c.WriteHeaders(batch, false);
  }

  /** A run to a rewind that leaves headers above the head: `a` is the head, the side chain of `b1` and `b2` is
      longer but lighter, and SetHead finds nothing to walk down. */
  method LeftoverRun(g: Header, a: Header, b1: Header, b2: Header) returns (c: HeaderChain)
    requires g.number == 0 && g.parent == NoHash && FollowsOn(g, a) && FollowsOn(g, b1) && FollowsOn(b1, b2)
    requires a.difficulty > b1.difficulty + b2.difficulty && b1.difficulty > 0 && b2.difficulty > 0
    ensures c.Ok() && c.currentHeader == a && b2 in c.headers && b2.number > a.number
  {
    c := new HeaderChain(g);
    var batch := [a];
    assert a in batch;
    var r := c.WriteHeaders(batch, false);
    assert c.currentHeader == a && c.Ok();
    batch := [b1, b2];
    assert b2 in batch;
    ImportSide(c, batch);
    c.SetHead(a.number);
  }

  /** Such headers: the head has difficulty 10, the side chain 1 and 1. */
  method LeftoverInput() returns (c: HeaderChain)
    ensures c.Ok() && exists h :: h in c.headers && h.number > c.currentHeader.number
  {
    var g := Header(NoHash, 0, 1, 0);
    var a, b1 := Header(HashOf(g), 1, 10, 0), Header(HashOf(g), 1, 1, 0);
    var b2 := Header(HashOf(b1), 2, 1, 0);
    c := LeftoverRun(g, a, b1, b2);
  }

  /** A run to the tie: `a` is imported first, `b` is stored beside it, and importing `b` again moves the head. */
  method KnownTieRun(g: Header, a: Header, b: Header) returns (c: HeaderChain)
    requires g.number == 0 && g.parent == NoHash && FollowsOn(g, a) && FollowsOn(g, b)
    requires a != b && a.difficulty == b.difficulty > 0
    ensures c.currentHeader == b && !IndexOf(c.canonical, c.currentHeader, c.genesis)
  {
    c := new HeaderChain(g);
    var batch := [a];
    assert a in batch;
    var r := c.WriteHeaders(batch, false);
    assert c.currentHeader == a && c.Ok();
    assert IndexAt(c.canonical, a, 1) && Ancestor(a, 1) == a;
    batch := [b];
    assert b in batch;
    r := c.WriteHeaders(batch, false);
    assert c.currentHeader == a && c.Ok();
    r := c.WriteHeaders(batch, true);
  }

  method KnownTieInput() returns (c: HeaderChain)
    ensures !IndexOf(c.canonical, c.currentHeader, c.genesis)
  {
    var g := Header(NoHash, 0, 1, 0);
    c := KnownTieRun(g, Header(HashOf(g), 1, 1, 0), Header(HashOf(g), 1, 1, 1));
  }
}
