/** The cached ancestor-hash function handed to the virtual machine. */
module HashFns {
  import opened Chains

  const UINT64 := 0x1_0000_0000_0000_0000

  /** Subtraction of 64-bit unsigned numbers. */
  function Sub64(a: nat, b: nat): nat {
    (a - b) % UINT64
  }

  /** The parent walk from `ref` gets to height `n`: every header it passes through is stored. */
  ghost predicate Reaches(ref: Header, headers: set<Header>, n: nat) {
    n < ref.number && forall m :: n < m < ref.number ==> Ancestor(ref, m) in headers
  }

  ghost predicate CachedAt(ref: Header, cache: seq<Hash>, i: nat)
    requires i < |cache|
  {
    cache[i] == if i < ref.number then HashOf(Ancestor(ref, ref.number - 1 - i)) else NoHash
  }

  class HashFn {
    const ref: Header
    const headers: set<Header>
    var cache: seq<Hash>

    /** The cache holds the hashes of consecutive ancestors from the parent of `ref` on, and at most the zero
        hash that comes after the genesis. */
    ghost predicate Valid()
      reads this
    {
      && ref.number < UINT64 && (exists g :: Rooted(ref, g) && g.parent == NoHash) && |cache| <= ref.number + 1
      && (forall i :: 0 <= i < |cache| ==> CachedAt(ref, cache, i))
      && (forall i :: 0 <= i < |cache| - 1 ==> cache[i].HashOf? && cache[i].header in headers)
    }

    constructor (ref: Header, headers: set<Header>)
      requires ref.number < UINT64 && exists g :: Rooted(ref, g) && g.parent == NoHash
      ensures Valid() && this.ref == ref && this.headers == headers
    {
      this.ref, this.headers, cache := ref, headers, [];
    }

    function GetHeader(hash: Hash, number: nat): Hash {
      if hash.HashOf? && hash.header in headers && hash.header.number == number then hash else NoHash
    }

    /** What each cached hash says about the parent walk. */
    lemma CacheFacts(i: nat)
      requires Valid() && i < |cache|
      ensures i < ref.number ==>
        && Reaches(ref, headers, ref.number - 1 - i)
        && cache[i].HashOf? && cache[i].header.number == ref.number - 1 - i
        && cache[i].header.parent == if i + 1 < ref.number then HashOf(Ancestor(ref, ref.number - 2 - i)) else NoHash
    {
      assert CachedAt(ref, cache, i);
      if i < ref.number {
        var g :| Rooted(ref, g) && g.parent == NoHash;
        var n := ref.number - 1 - i;
        AncestorRooted(ref, g, n);
        if n > 0 {
          AncestorOfAncestor(ref, g, n, n - 1);
        }
        forall m | n < m < ref.number
          ensures Ancestor(ref, m) in headers
        {
          assert CachedAt(ref, cache, ref.number - 1 - m);
        }
      }
    }

    /** A cached hash that cannot be followed ends the walk. */
    lemma WalkEnds(n: nat)
      requires Valid() && cache != [] && n < UINT64
      requires GetHeader(cache[|cache| - 1], Sub64(ref.number, |cache|)) == NoHash
      ensures ref.number < |cache| + n + 1 || !Reaches(ref, headers, n)
    {
      CacheFacts(|cache| - 1);
      assert CachedAt(ref, cache, |cache| - 1);
    }

    /** The hash of the ancestor at height `n`, or the zero hash when the parent walk does not reach it. */
    method Get(n: nat) returns (hash: Hash)
      requires Valid() && n < UINT64
      modifies this
      ensures Valid() && old(cache) <= cache
      ensures hash == if Reaches(ref, headers, n) then HashOf(Ancestor(ref, n)) else NoHash
    {
      Start();
      var idx := Sub64(Sub64(ref.number, n), 1);
      if idx < |cache| {
        assert CachedAt(ref, cache, idx);
        CacheFacts(idx);
        return cache[idx];
      }
      hash := WalkTo(n);
    }

    /** The walk on from the last cached ancestor, filling the cache. */
    method WalkTo(n: nat) returns (hash: Hash)
      requires Valid() && n < UINT64 && cache != []
      requires n < ref.number ==> |cache| < ref.number - n
      modifies this
      ensures Valid() && old(cache) <= cache
      ensures hash == if Reaches(ref, headers, n) then HashOf(Ancestor(ref, n)) else NoHash
    {
      var lastKnownHash, lastKnownNumber := cache[|cache| - 1], Sub64(ref.number, |cache|);
      while true
        invariant Valid() && cache != [] && old(cache) <= cache
        invariant lastKnownHash == cache[|cache| - 1] && lastKnownNumber == Sub64(ref.number, |cache|)
        invariant n < ref.number ==> |cache| < ref.number - n
        decreases ref.number + 1 - |cache|
      {
        var header := GetHeader(lastKnownHash, lastKnownNumber);
        if header == NoHash {
          WalkEnds(n);
          break;
        }
        Extend(header.header);
        lastKnownHash := header.header.parent;
        lastKnownNumber := Sub64(header.header.number, 1);
        if n == lastKnownNumber {
          LastCached(n);
          return lastKnownHash;
        }
      }
      return NoHash;
    }

    /** The last cached hash is what was asked for once its height comes up, also when that has wrapped around. */
    lemma LastCached(n: nat)
      requires Valid() && cache != [] && n < UINT64 && n == Sub64(ref.number, |cache|)
      ensures cache[|cache| - 1] == if Reaches(ref, headers, n) then HashOf(Ancestor(ref, n)) else NoHash
    {
      CacheFacts(|cache| - 1);
      assert CachedAt(ref, cache, |cache| - 1);
    }

    method Start()
      requires Valid()
      modifies this
      ensures Valid() && cache != [] && old(cache) <= cache
    {
      if |cache| == 0 {
        ghost var g :| Rooted(ref, g) && g.parent == NoHash;
        assert ref.number > 0 ==> Ancestor(ref, ref.number - 1) == ref.parent.header;
        cache := cache + [ref.parent];
      }
    }

    /** One more ancestor, the parent of the last. */
    method Extend(header: Header)
      requires Valid() && cache != [] && cache[|cache| - 1] == HashOf(header) && header in headers
      modifies this
      ensures Valid() && cache == old(cache) + [header.parent]
      ensures header.number == ref.number - old(|cache|)
    {
      CacheFacts(|cache| - 1);
      assert CachedAt(ref, cache, |cache| - 1);
      ghost var was := cache;
      cache := cache + [header.parent];
      forall i | 0 <= i < |cache|
        ensures CachedAt(ref, cache, i)
      {
        assert i < |was| ==> CachedAt(ref, was, i) && cache[i] == was[i];
      }
    }
  }
}
