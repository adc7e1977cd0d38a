/** The section indexer: it processes sections without the lock and, to trust all stored section heads, checks
    only the last one. There is no checkpoint. */
module ChainIndexers {
  import opened Chains

  /** What may happen while the indexer does not hold its lock: the chain moves to another head, newHead is called, or
      somebody asks for the processed sections. */
  datatype Outside = ChainMoves(chain: Header) | HeadSeen(head: nat, reorg: bool) | AskSections

  /** What happens around one step of unlocked processing; the header read may be missing or refused by the backend. */
  datatype Interference = Interference(events: seq<Outside>, found: bool, processed: bool)

  ghost predicate ChainsRooted(steps: seq<Interference>, g: Header) {
    forall i :: 0 <= i < |steps| ==> EventsRooted(steps[i].events, g)
  }

  ghost predicate EventsRooted(events: seq<Outside>, g: Header) {
    forall i :: 0 <= i < |events| && events[i].ChainMoves? ==> Rooted(events[i].chain, g)
  }

  /** Nothing interferes and nothing fails. */
  ghost predicate Quiet(steps: seq<Interference>) {
    forall i :: 0 <= i < |steps| ==> steps[i] == Interference([], true, true)
  }

  /** What comes before height `number` in the index. */
  function Before(chain: Header, number: nat): Hash {
    if number == 0 then NoHash else ReadCanonical(chain, number - 1)
  }

  lemma BeforeIsParent(chain: Header, g: Header, number: nat)
    requires Rooted(chain, g) && g.parent == NoHash && number <= chain.number
    ensures Ancestor(chain, number).parent == Before(chain, number)
  {
    AncestorRooted(chain, g, number);
    if number > 0 {
      AncestorOfAncestor(chain, g, number, number - 1);
    }
  }

  function ReadCanonical(chain: Header, n: nat): Hash {
    if n <= chain.number then HashOf(Ancestor(chain, n)) else NoHash
  }

  /** The height of the last block of a section. */
  function SectionEnd(section: nat, size: nat): int {
    (section + 1) * size - 1
  }

  /** The head of section `i` ends that section and is `size` generations after the head before it. */
  ghost predicate HeadAt(heads: map<nat, Hash>, g: Header, size: nat, i: nat) {
    && i in heads && heads[i].HashOf? && Rooted(heads[i].header, g) && heads[i].header.number == SectionEnd(i, size)
    && Walk(heads[i], size) == if i == 0 then NoHash else if i - 1 in heads then heads[i - 1] else NoHash
  }

  ghost predicate HeadsLinked(heads: map<nat, Hash>, g: Header, size: nat, stored: nat) {
    && (forall i :: i in heads <==> 0 <= i < stored)
    && (forall i :: 0 <= i < stored ==> HeadAt(heads, g, size, i))
  }

  ghost predicate CanonicalAt(heads: map<nat, Hash>, chain: Header, size: nat, i: nat)
    requires size > 0
  {
    i in heads && heads[i] == ReadCanonical(chain, SectionEnd(i, size))
  }

  ghost predicate AllCanonical(heads: map<nat, Hash>, chain: Header, size: nat, stored: nat)
    requires size > 0
  {
    forall i :: 0 <= i < stored ==> CanonicalAt(heads, chain, size, i)
  }

  /** A canonical section head makes the one before it canonical. */
  lemma CanonicalBefore(heads: map<nat, Hash>, g: Header, size: nat, stored: nat, chain: Header, i: nat)
    requires size > 0 && Rooted(chain, g) && HeadsLinked(heads, g, size, stored) && 0 < i < stored
    requires CanonicalAt(heads, chain, size, i)
    ensures CanonicalAt(heads, chain, size, i - 1)
  {
    assert HeadAt(heads, g, size, i) && HeadAt(heads, g, size, i - 1);
    var h := heads[i].header;
    assert SectionEnd(i, size) - size == SectionEnd(i - 1, size);
    WalkIsAncestor(h, g, size);
    AncestorOfAncestor(chain, g, h.number, h.number - size);
  }

  /** Checking the last section head is enough. */
  lemma {:induction false} LastVouches(heads: map<nat, Hash>, g: Header, size: nat, stored: nat, chain: Header, i: nat)
    requires size > 0 && Rooted(chain, g) && HeadsLinked(heads, g, size, stored) && i < stored
    requires CanonicalAt(heads, chain, size, stored - 1)
    ensures CanonicalAt(heads, chain, size, i)
    decreases stored - i
  {
    if i < stored - 1 {
      LastVouches(heads, g, size, stored, chain, i + 1);
      CanonicalBefore(heads, g, size, stored, chain, i + 1);
    }
  }

  lemma AllVouched(heads: map<nat, Hash>, g: Header, size: nat, stored: nat, chain: Header)
    requires size > 0 && Rooted(chain, g) && HeadsLinked(heads, g, size, stored)
    requires stored > 0 ==> CanonicalAt(heads, chain, size, stored - 1)
    ensures AllCanonical(heads, chain, size, stored)
  {
    forall i | 0 <= i < stored
      ensures CanonicalAt(heads, chain, size, i)
    {
      LastVouches(heads, g, size, stored, chain, i);
    }
  }

  /** The sections that end at or below the last common block stay canonical through a reorganisation. */
  lemma ReorgKeepsCanonical(heads: map<nat, Hash>, g: Header, size: nat, stored: nat, was: Header, now: Header,
                            common: nat)
    requires size > 0 && Rooted(was, g) && Rooted(now, g) && AllCanonical(heads, was, size, stored)
    requires common <= was.number && common <= now.number && Ancestor(was, common) == Ancestor(now, common)
    ensures AllCanonical(heads, now, size, if (common + 1) / size < stored then (common + 1) / size else stored)
  {
    var kept := if (common + 1) / size < stored then (common + 1) / size else stored;
    forall i | 0 <= i < kept
      ensures CanonicalAt(heads, now, size, i)
    {
      assert CanonicalAt(heads, was, size, i);
      SectionFits(i, size, common);
      AncestorOfAncestor(was, g, common, SectionEnd(i, size));
      AncestorOfAncestor(now, g, common, SectionEnd(i, size));
    }
  }

  lemma SectionFits(i: nat, size: nat, head: nat)
    requires size > 0 && i < (head + 1) / size
    ensures 0 <= SectionEnd(i, size) <= head
  {
    var q := (head + 1) / size;
    assert (i + 1) * size <= q * size <= head + 1;
    assert (i + 1) * size >= size;
  }

  class ChainIndexer {
    const genesis: Header
    const sectionSize: nat
    const confirmsReq: nat
    var storedSections: nat
    var knownSections: nat
    var cascadedHead: nat
    var sectionHeads: map<nat, Hash>
    var chain: Header

    ghost predicate Valid()
      reads this
    {
      && sectionSize > 0 && genesis.number == 0 && genesis.parent == NoHash && Rooted(chain, genesis)
      && HeadsLinked(sectionHeads, genesis, sectionSize, storedSections)
    }

    constructor (genesis: Header, sectionSize: nat, confirmsReq: nat)
      requires genesis.number == 0 && genesis.parent == NoHash && sectionSize > 0
      ensures Valid() && storedSections == 0
    {
      this.genesis, this.sectionSize, this.confirmsReq := genesis, sectionSize, confirmsReq;
      storedSections, knownSections, cascadedHead, sectionHeads, chain := 0, 0, 0, map[], genesis;
    }

    function SectionHead(section: nat): Hash
      reads this`sectionHeads
    {
      if section in sectionHeads then sectionHeads[section] else NoHash
    }

    /** Gives up the sections from `sections` on. */
    method DropSections(sections: nat)
      requires Valid() && sections <= storedSections
      modifies this`storedSections, this`sectionHeads
      ensures Valid() && storedSections == sections
      ensures forall i :: 0 <= i < sections ==> SectionHead(i) == old(SectionHead(i))
    {
      ghost var heads := sectionHeads;
      while storedSections > sections
        invariant storedSections >= sections
        invariant forall i :: i in sectionHeads <==> 0 <= i < storedSections
        invariant forall i :: i in sectionHeads ==> i in heads && sectionHeads[i] == heads[i]
      {
        storedSections := storedSections - 1;
        sectionHeads := sectionHeads - {storedSections};
      }
      forall i: nat | 0 <= i < storedSections
        ensures HeadAt(sectionHeads, genesis, sectionSize, i)
      {
        assert HeadAt(heads, genesis, sectionSize, i);
      }
    }

    /** Stores the head of the next section. */
    method StoreSection(head: Hash)
      requires Valid() && head.HashOf? && Rooted(head.header, genesis)
      requires head.header.number == SectionEnd(storedSections, sectionSize)
      requires Walk(head, sectionSize) == if storedSections == 0 then NoHash else SectionHead(storedSections - 1)
      modifies this`storedSections, this`sectionHeads
      ensures Valid() && storedSections == old(storedSections) + 1
      ensures sectionHeads == old(sectionHeads)[old(storedSections) := head]
    {
      ghost var heads := sectionHeads;
      sectionHeads := sectionHeads[storedSections := head];
      storedSections := storedSections + 1;
      forall i: nat | 0 <= i < storedSections
        ensures HeadAt(sectionHeads, genesis, sectionSize, i)
      {
        assert i < storedSections - 1 ==> HeadAt(heads, genesis, sectionSize, i);
      }
    }

    /** newHead. */
    method NewHead(head: nat, reorg: bool)
      requires Valid()
      modifies this`storedSections, this`sectionHeads, this`knownSections, this`cascadedHead
      ensures Valid()
      ensures var known := (head + 1) / sectionSize;
        if reorg then
          && storedSections == (if known < old(storedSections) then known else old(storedSections))
          && knownSections == (if known < old(knownSections) then known else old(knownSections))
          && (forall i :: 0 <= i < storedSections ==> SectionHead(i) == old(SectionHead(i)))
        else
          && storedSections == old(storedSections) && sectionHeads == old(sectionHeads)
          && knownSections >= old(knownSections)
          && (knownSections > old(knownSections) ==> knownSections * sectionSize + confirmsReq <= head + 1)
    {
      if reorg {
        var known := (head + 1) / sectionSize;
        if known < knownSections {
          knownSections := known;
        }
        if known < storedSections {
          DropSections(known);
        }
        var finalized := known * sectionSize;
        if finalized < cascadedHead {
          cascadedHead := finalized;
        }
        return;
      }
      if head >= confirmsReq {
        var sections := (head + 1 - confirmsReq) / sectionSize;
        if sections > knownSections {
          assert sections * sectionSize <= head + 1 - confirmsReq;
          knownSections := sections;
        }
      }
    }

    /** verifyLastHead. */
    method VerifyLastHead()
      requires Valid()
      modifies this`storedSections, this`sectionHeads
      ensures Valid() && storedSections <= old(storedSections)
      ensures AllCanonical(sectionHeads, chain, sectionSize, storedSections)
      ensures old(AllCanonical(sectionHeads, chain, sectionSize, storedSections)) ==>
        storedSections == old(storedSections)
      ensures forall i :: 0 <= i < storedSections ==> SectionHead(i) == old(SectionHead(i))
    {
      while storedSections > 0
        invariant Valid() && storedSections <= old(storedSections)
        invariant old(AllCanonical(sectionHeads, chain, sectionSize, storedSections)) ==>
          storedSections == old(storedSections) && sectionHeads == old(sectionHeads)
        invariant forall i :: 0 <= i < storedSections ==> SectionHead(i) == old(SectionHead(i))
        decreases storedSections
      {
        assert HeadAt(sectionHeads, genesis, sectionSize, storedSections - 1);
        if SectionHead(storedSections - 1) == ReadCanonical(chain, storedSections * sectionSize - 1) {
          AllVouched(sectionHeads, genesis, sectionSize, storedSections, chain);
          return;
        }
        assert !CanonicalAt(sectionHeads, chain, sectionSize, storedSections - 1);
        DropSections(storedSections - 1);
      }
    }

    /** Sections: the number of processed sections, with all of their heads canonical. */
    method Sections() returns (count: nat, last: int, head: Hash)
      requires Valid()
      modifies this`storedSections, this`sectionHeads
      ensures Valid() && count == storedSections && AllCanonical(sectionHeads, chain, sectionSize, count)
      ensures count <= old(storedSections) && forall i :: 0 <= i < count ==> SectionHead(i) == old(SectionHead(i))
      ensures old(AllCanonical(sectionHeads, chain, sectionSize, storedSections)) ==> count == old(storedSections)
      ensures count > 0 ==> head == ReadCanonical(chain, count * sectionSize - 1) && head.HashOf?
    {
      VerifyLastHead();
      count, last := storedSections, (storedSections * sectionSize - 1) % 0x1_0000_0000_0000_0000;
      head := if count > 0 then SectionHead(count - 1) else NoHash;
      if count > 0 {
        assert CanonicalAt(sectionHeads, chain, sectionSize, count - 1);
        assert HeadAt(sectionHeads, genesis, sectionSize, count - 1);
      }
    }

    /** The world while the lock is not held. */
    method Interfere(events: seq<Outside>)
      requires Valid() && EventsRooted(events, genesis)
      modifies this
      ensures Valid() && storedSections <= old(storedSections)
      ensures forall i :: 0 <= i < storedSections ==> SectionHead(i) == old(SectionHead(i))
      ensures events == [] ==> chain == old(chain) && storedSections == old(storedSections)
    {
      for i := 0 to |events|
        invariant Valid() && storedSections <= old(storedSections)
        invariant i == 0 ==> chain == old(chain) && storedSections == old(storedSections)
        invariant forall i :: 0 <= i < storedSections ==> SectionHead(i) == old(SectionHead(i))
      {
        match events[i]
        case ChainMoves(head) =>
          chain := head;
        case HeadSeen(head, reorg) =>
          NewHead(head, reorg);
        case AskSections =>
          var count, last, head := Sections();
      }
    }

    /** processSection: reads a section block by block, each time from the index as it is then. A section that is
        processed without error ends `sectionSize` generations after `lastHead0`. */
    method ProcessSection(section: nat, lastHead0: Hash, resetOk: bool, steps: seq<Interference>, commitOk: bool)
      returns (head: Hash)
      requires Valid() && |steps| == sectionSize && ChainsRooted(steps, genesis)
      requires lastHead0.HashOf? ==> Rooted(lastHead0.header, genesis)
      modifies this
      ensures Valid() && storedSections <= old(storedSections)
      ensures forall i :: 0 <= i < storedSections ==> SectionHead(i) == old(SectionHead(i))
      ensures head.HashOf? ==>
        && Rooted(head.header, genesis) && head.header.number == SectionEnd(section, sectionSize)
        && Walk(head, sectionSize) == lastHead0
      ensures (resetOk && commitOk && Quiet(steps) && (section + 1) * sectionSize <= chain.number + 1
               && lastHead0 == Before(old(chain), section * sectionSize)) ==>
        && chain == old(chain) && storedSections == old(storedSections)
        && head == Before(chain, (section + 1) * sectionSize) != NoHash
    {
      if !resetOk {
        DropSections(0);
        return NoHash;
      }
      var lastHead := lastHead0;
      var number: nat := section * sectionSize;
      for i := 0 to sectionSize
        invariant Valid() && storedSections <= old(storedSections) && number == section * sectionSize + i
        invariant forall i :: 0 <= i < storedSections ==> SectionHead(i) == old(SectionHead(i))
        invariant lastHead.HashOf? ==> Rooted(lastHead.header, genesis)
        invariant i > 0 ==> lastHead.HashOf? && lastHead.header.number + 1 == number
        invariant Walk(lastHead, i) == lastHead0
        invariant Quiet(steps) ==> chain == old(chain) && storedSections == old(storedSections)
        invariant lastHead0 == Before(old(chain), section * sectionSize) && Quiet(steps) ==>
          lastHead == Before(chain, number)
      {
        Interfere(steps[i].events);
        var hash := ReadCanonical(chain, number);
        assert number < (section + 1) * sectionSize;
        if number <= chain.number {
          BeforeIsParent(chain, genesis, number);
        }
        if hash == NoHash || !steps[i].found || hash.header.parent != lastHead || !steps[i].processed {
          return NoHash;
        }
        AncestorRooted(chain, genesis, number);
        lastHead := hash;
        number := number + 1;
      }
      assert number == (section + 1) * sectionSize;
      return if commitOk then lastHead else NoHash;
    }

    /** One round of updateLoop. The section heads stay linked whatever happens while the section is processed. */
    method Update(resetOk: bool, steps: seq<Interference>, commitOk: bool)
      requires Valid() && |steps| == sectionSize && ChainsRooted(steps, genesis)
      modifies this
      ensures Valid()
      ensures old(knownSections) <= old(storedSections) ==>
        storedSections == old(storedSections) && sectionHeads == old(sectionHeads)
      ensures (old(knownSections) > old(storedSections)
               && old(AllCanonical(sectionHeads, chain, sectionSize, storedSections))
               && resetOk && commitOk && Quiet(steps)
               && (old(storedSections) + 1) * sectionSize <= chain.number + 1) ==>
        storedSections == old(storedSections) + 1 && AllCanonical(sectionHeads, chain, sectionSize, storedSections)
    {
      if knownSections > storedSections {
        VerifyLastHead();
        var section := storedSections;
        var oldHead := NoHash;
        if section > 0 {
          oldHead := SectionHead(section - 1);
          assert HeadAt(sectionHeads, genesis, sectionSize, section - 1);
          assert CanonicalAt(sectionHeads, chain, sectionSize, section - 1);
        }
        var newHead := ProcessSection(section, oldHead, resetOk, steps, commitOk);
        if newHead != NoHash && (section == 0 || oldHead == SectionHead(section - 1)) {
          StoreSection(newHead);
          if newHead == Before(chain, storedSections * sectionSize) {
            assert CanonicalAt(sectionHeads, chain, sectionSize, section);
            AllVouched(sectionHeads, genesis, sectionSize, storedSections, chain);
          }
          cascadedHead := storedSections * sectionSize - 1;
        } else {
          VerifyLastHead();
          knownSections := storedSections;
        }
      }
    }
  }
}
