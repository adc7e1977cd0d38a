/** Headers and the chains they form. A hash stands for the header it was taken of, so that hashes are
    collision free and no header is its own ancestor. */
module Chains {
  datatype Header = Header(parent: Hash, number: nat, difficulty: nat, extra: nat)

  /** `NoHash` is the zero hash. */
  datatype Hash = NoHash | HashOf(header: Header)

  /** The chain of `h` goes down to `genesis` one number at a time. */
  ghost predicate Rooted(h: Header, genesis: Header) {
    if h.number == 0 then h == genesis
    else
      match h.parent
      case NoHash => false
      case HashOf(p) => p.number + 1 == h.number && Rooted(p, genesis)
  }

  /** The header `steps` parents up, or the zero hash when the walk runs out of parents. */
  function Walk(hash: Hash, steps: nat): Hash
    decreases steps
  {
    if steps == 0 || hash.NoHash? then hash else Walk(hash.header.parent, steps - 1)
  }

  /** The ancestor at height `n`; `h` itself when it is no higher than that. */
  function Ancestor(h: Header, n: nat): Header {
    if h.number <= n || h.parent.NoHash? then h else Ancestor(h.parent.header, n)
  }

  lemma {:induction false} AncestorRooted(h: Header, g: Header, n: nat)
    requires Rooted(h, g) && n <= h.number
    ensures Rooted(Ancestor(h, n), g) && Ancestor(h, n).number == n
  {
    if n < h.number {
      AncestorRooted(h.parent.header, g, n);
    }
  }

  lemma {:induction false} AncestorOfAncestor(h: Header, g: Header, m: nat, n: nat)
    requires Rooted(h, g) && n <= m <= h.number
    ensures Ancestor(Ancestor(h, m), n) == Ancestor(h, n)
  {
    if m < h.number {
      AncestorOfAncestor(h.parent.header, g, m, n);
    }
  }

  lemma {:induction false} WalkIsAncestor(h: Header, g: Header, steps: nat)
    requires Rooted(h, g) && steps <= h.number
    ensures Walk(HashOf(h), steps) == HashOf(Ancestor(h, h.number - steps))
  {
    if steps > 0 {
      WalkIsAncestor(h.parent.header, g, steps - 1);
    }
  }

  /** The chains of `a` and `b` agree up to height `c` and no further. */
  ghost predicate Forks(a: Header, b: Header, c: nat) {
    && c <= a.number && c <= b.number && Ancestor(a, c) == Ancestor(b, c)
    && (c < a.number && c < b.number ==> Ancestor(a, c + 1) != Ancestor(b, c + 1))
  }

  /** The sum of the difficulties along the chain of `h`. */
  function SumDifficulty(h: Header): nat {
    h.difficulty + match h.parent case NoHash => 0 case HashOf(p) => SumDifficulty(p)
  }

  type Index = map<nat, Hash>

  function Read(index: Index, n: nat): Hash {
    if n in index then index[n] else NoHash
  }

  /** `index` maps each number to the ancestor of `h` there, and nothing above `h`. */
  ghost predicate IndexOf(index: Index, h: Header, g: Header) {
    Rooted(h, g) && forall n :: IndexAt(index, h, n)
  }

  ghost predicate IndexAt(index: Index, h: Header, n: nat) {
    Read(index, n) == if n <= h.number then HashOf(Ancestor(h, n)) else NoHash
  }

  /** Every stored header other than the genesis has its parent stored. */
  ghost predicate Closed(headers: set<Header>, g: Header) {
    && g in headers && g.number == 0 && g.parent == NoHash
    && forall h {:trigger StoredAt(headers, g, h)} :: h in headers ==> StoredAt(headers, g, h)
  }

  ghost predicate StoredAt(headers: set<Header>, g: Header, h: Header) {
    Rooted(h, g) && (h == g || (h.parent.HashOf? && h.parent.header in headers))
  }

  lemma {:induction false} AncestorsStored(headers: set<Header>, g: Header, h: Header, n: nat)
    requires Closed(headers, g) && h in headers && n <= h.number
    ensures Ancestor(h, n) in headers
  {
    assert StoredAt(headers, g, h);
    if n < h.number {
      AncestorsStored(headers, g, h.parent.header, n);
    }
  }

  /** Deletes the entries from `n + 1` up to the first missing one, of an index without gaps up to `top`. */
  method DeleteAbove(index: Index, n: nat, ghost top: nat) returns (m: Index)
    requires forall k: nat :: Read(index, k) == NoHash <==> top < k
    ensures forall k: nat :: Read(m, k) == if k <= n then Read(index, k) else NoHash
  {
    m := index;
    var i: nat := n + 1;
    while Read(index, i) != NoHash
      invariant n < i && forall k: nat :: Read(m, k) == if n < k < i then NoHash else Read(index, k)
      decreases top + 1 - i
    {
      ghost var was := m;
      m := m - {i};
      assert forall k: nat :: Read(m, k) == if k == i then NoHash else Read(was, k);
      i := i + 1;
    }
    assert top < i;
  }
}
