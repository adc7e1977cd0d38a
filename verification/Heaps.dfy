/** Binary heaps on a slice, with the sift order of Go's container/heap, and a stable sort.
    `le(a, b)` is the negation of the source's Less(b, a). */
module Heaps {
  ghost predicate TotalPreorder<T(!new)>(le: (T, T) -> bool) {
    && (forall a, b :: le(a, b) || le(b, a))
    && (forall a, b, c :: le(a, b) && le(b, c) ==> le(a, c))
  }

  function Parent(k: int): int {
    (k - 1) / 2
  }

  /** Every child below `n` whose parent is at or above `lo`, except those in `skip`, is in order with its parent. */
  ghost predicate HeapBetween<T>(h: seq<T>, le: (T, T) -> bool, lo: nat, n: nat, skip: int) {
    n <= |h| && forall k :: 0 < k < n && lo <= Parent(k) && k != skip ==> le(h[Parent(k)], h[k])
  }

  ghost predicate IsHeap<T>(h: seq<T>, le: (T, T) -> bool) {
    forall k :: 0 < k < |h| ==> le(h[Parent(k)], h[k])
  }

  ghost predicate SortedBy<T>(s: seq<T>, le: (T, T) -> bool) {
    forall i, j :: 0 <= i < j < |s| ==> le(s[i], s[j])
  }

  lemma {:induction false} RootIsLeast<T(!new)>(h: seq<T>, le: (T, T) -> bool, k: nat)
    requires TotalPreorder(le) && IsHeap(h, le) && k < |h|
    ensures le(h[0], h[k])
    decreases k
  {
    if k > 0 {
      RootIsLeast(h, le, Parent(k));
    }
  }

  function Swap<T>(h: seq<T>, i: nat, j: nat): (r: seq<T>)
    requires i < |h| && j < |h|
    ensures |r| == |h| && multiset(r) == multiset(h)
    ensures r[i] == h[j] && r[j] == h[i]
    ensures forall k :: 0 <= k < |h| && k != i && k != j ==> r[k] == h[k]
  {
    h[i := h[j]][j := h[i]]
  }

  /** What sifting down keeps while the hole travels from `i0` to `i`. */
  ghost predicate Sinking<T>(h: seq<T>, le: (T, T) -> bool, i0: nat, i: nat, lo: nat, n: nat) {
    && lo <= i0 <= i && n <= |h|
    && (forall k :: 0 < k < n && lo <= Parent(k) && k != i0 && Parent(k) != i ==> le(h[Parent(k)], h[k]))
    && (forall k :: 0 < k < n && Parent(k) == i && lo <= Parent(i) && 0 < i ==> le(h[Parent(i)], h[k]))
    && (i0 < i && i0 < n && 0 < i0 && lo <= Parent(i0) ==> le(h[Parent(i0)], h[i0]))
  }

  lemma SinkOne<T(!new)>(h: seq<T>, le: (T, T) -> bool, i0: nat, i: nat, j: nat, lo: nat, n: nat)
    requires TotalPreorder(le) && Sinking(h, le, i0, i, lo, n)
    requires 0 < j < n && Parent(j) == i && le(h[j], h[i])
    requires forall k :: 0 < k < n && Parent(k) == i ==> le(h[j], h[k])
    ensures Sinking(Swap(h, i, j), le, i0, j, lo, n)
  {
  }

  lemma Sunk<T(!new)>(h: seq<T>, le: (T, T) -> bool, i0: nat, i: nat, lo: nat, n: nat)
    requires Sinking(h, le, i0, i, lo, n)
    requires forall k :: 0 < k < n && Parent(k) == i ==> le(h[i], h[k])
    ensures HeapBetween(h, le, lo, n, i0)
  {
  }

  /** The child that down compares with its parent: the left one unless the right one is less. */
  function LeastChild<T(!new)>(h: seq<T>, le: (T, T) -> bool, i: nat, n: nat): (j: nat)
    requires TotalPreorder(le) && 2 * i + 1 < n <= |h|
    ensures 0 < j < n && Parent(j) == i
    ensures forall k :: 0 < k < n && Parent(k) == i ==> le(h[j], h[k])
  {
    if 2 * i + 2 < n && !le(h[2 * i + 1], h[2 * i + 2]) then 2 * i + 2 else 2 * i + 1
  }

  /** container/heap's up. */
  method Up<T(!new)>(h0: seq<T>, le: (T, T) -> bool, j0: nat) returns (h: seq<T>)
    requires TotalPreorder(le) && j0 < |h0|
    requires HeapBetween(h0, le, 0, |h0|, j0)
    requires forall k :: 0 < k < |h0| && Parent(k) == j0 && 0 < j0 ==> le(h0[Parent(j0)], h0[k])
    ensures IsHeap(h, le)
    ensures |h| == |h0| && multiset(h) == multiset(h0)
  {
    h := h0;
    var j := j0;
    while j > 0 && !le(h[Parent(j)], h[j])
      invariant j < |h| == |h0|
      invariant multiset(h) == multiset(h0)
      invariant HeapBetween(h, le, 0, |h|, j)
      invariant forall k :: 0 < k < |h| && Parent(k) == j && 0 < j ==> le(h[Parent(j)], h[k])
    {
      var i := Parent(j);
      h := Swap(h, i, j);
      j := i;
    }
  }

  /** container/heap's down, on the first `n` elements. */
  method Down<T(!new)>(h0: seq<T>, le: (T, T) -> bool, i0: nat, lo: nat, n: nat) returns (h: seq<T>, moved: bool)
    requires TotalPreorder(le) && Sinking(h0, le, i0, i0, lo, n)
    ensures |h| == |h0| && multiset(h) == multiset(h0) && h[n..] == h0[n..]
    ensures HeapBetween(h, le, lo, n, i0)
    ensures !moved ==> h == h0
    ensures moved && i0 < n && 0 < i0 && lo <= Parent(i0) ==> le(h[Parent(i0)], h[i0])
  {
    h, moved := h0, false;
    var i := i0;
    while 2 * i + 1 < n
      invariant |h| == |h0| && multiset(h) == multiset(h0) && h[n..] == h0[n..]
      invariant moved <==> i != i0
      invariant !moved ==> h == h0
      invariant Sinking(h, le, i0, i, lo, n)
      invariant !(2 * i + 1 < n) ==> forall k :: 0 < k < n ==> Parent(k) != i
      decreases n - i
    {
      var j := LeastChild(h, le, i, n);
      if le(h[i], h[j]) {
        assert forall k :: 0 < k < n && Parent(k) == i ==> le(h[j], h[k]) && le(h[i], h[k]);
        break;
      }
      SinkOne(h, le, i0, i, j, lo, n);
      h := Swap(h, i, j);
      i, moved := j, true;
    }
    Sunk(h, le, i0, i, lo, n);
  }

  method Push<T(!new)>(h0: seq<T>, le: (T, T) -> bool, x: T) returns (h: seq<T>)
    requires TotalPreorder(le) && IsHeap(h0, le)
    ensures IsHeap(h, le) && multiset(h) == multiset(h0)[x := multiset(h0)[x] + 1]
    ensures |h| == |h0| + 1
  {
    h := Up(h0 + [x], le, |h0|);
  }

  method Pop<T(!new)>(h0: seq<T>, le: (T, T) -> bool) returns (h: seq<T>, x: T)
    requires TotalPreorder(le) && IsHeap(h0, le) && h0 != []
    ensures IsHeap(h, le) && multiset(h0) == multiset(h)[x := multiset(h)[x] + 1]
    ensures |h| == |h0| - 1 && x == h0[0]
    ensures forall y :: y in h0 ==> le(x, y)
  {
    var n := |h0| - 1;
    var swapped := Swap(h0, 0, n);
    var moved;
    h, moved := Down(swapped, le, 0, 0, n);
    assert h[n..] == [h0[0]];
    assert h == h[..n] + [h0[0]];
    h, x := h[..n], h[n];
    forall y | y in h0
      ensures le(x, y)
    {
      var k :| 0 <= k < |h0| && h0[k] == y;
      RootIsLeast(h0, le, k);
    }
  }

  lemma HoleSinks<T(!new)>(h: seq<T>, le: (T, T) -> bool, i: nat, n: nat)
    requires TotalPreorder(le) && IsHeap(h, le) && i < n == |h| - 1
    ensures Sinking(Swap(h, i, n), le, i, i, 0, n)
  {
    var s := Swap(h, i, n);
    forall k | 0 < k < n && Parent(k) == i && 0 < i
      ensures le(s[Parent(i)], s[k])
    {
      assert le(h[Parent(i)], h[i]) && le(h[i], h[k]);
    }
  }

  lemma DropLast<T>(h: seq<T>, n: nat, x: T)
    requires |h| == n + 1 && h[n] == x
    ensures multiset(h) == multiset(h[..n])[x := multiset(h[..n])[x] + 1]
  {
    assert h == h[..n] + [x];
  }

  /** Puts the last entry in the place of entry `i`, drops that, and sifts down. */
  method SinkLast<T(!new)>(h0: seq<T>, le: (T, T) -> bool, i: nat) returns (h: seq<T>, moved: bool)
    requires TotalPreorder(le) && IsHeap(h0, le) && i < |h0| - 1
    ensures |h| == |h0| - 1 && multiset(h0) == multiset(h)[h0[i] := multiset(h)[h0[i]] + 1]
    ensures moved ==> IsHeap(h, le)
    ensures !moved ==> HeapBetween(h, le, 0, |h|, i)
    ensures !moved ==> forall k :: 0 < k < |h| && Parent(k) == i && 0 < i ==> le(h[Parent(i)], h[k])
  {
    var n := |h0| - 1;
    HoleSinks(h0, le, i, n);
    var sunk;
    sunk, moved := Down(Swap(h0, i, n), le, i, 0, n);
    assert sunk[n] == sunk[n..][0] == h0[i];
    DropLast(sunk, n, h0[i]);
    h := sunk[..n];
  }

  method Remove<T(!new)>(h0: seq<T>, le: (T, T) -> bool, i: nat) returns (h: seq<T>)
    requires TotalPreorder(le) && IsHeap(h0, le) && i < |h0|
    ensures IsHeap(h, le) && |h| == |h0| - 1
    ensures multiset(h0) == multiset(h)[h0[i] := multiset(h)[h0[i]] + 1]
  {
    var n := |h0| - 1;
    if n == i {
      h := h0[..n];
      DropLast(h0, n, h0[i]);
    } else {
      var moved;
      h, moved := SinkLast(h0, le, i);
      if !moved {
        h := Up(h, le, i);
      }
    }
  }

  method Init<T(!new)>(h0: seq<T>, le: (T, T) -> bool) returns (h: seq<T>)
    requires TotalPreorder(le)
    ensures IsHeap(h, le) && multiset(h) == multiset(h0) && |h| == |h0|
  {
    h := h0;
    var i := |h| / 2;
    while i > 0
      invariant |h| == |h0| && multiset(h) == multiset(h0) && 0 <= i <= |h| / 2
      invariant HeapBetween(h, le, i, |h|, -1)
    {
      i := i - 1;
      var moved;
      h, moved := Down(h, le, i, i, |h|);
    }
  }

  lemma InsertedInOrder<T(!new)>(r: seq<T>, le: (T, T) -> bool, j: nat, x: T)
    requires TotalPreorder(le) && SortedBy(r, le) && j <= |r|
    requires j > 0 ==> le(r[j - 1], x)
    requires forall k :: j <= k < |r| ==> le(x, r[k])
    ensures SortedBy(r[..j] + [x] + r[j..], le)
    ensures multiset(r[..j] + [x] + r[j..]) == multiset(r) + multiset{x}
  {
    var s := r[..j] + [x] + r[j..];
    forall a, b | 0 <= a < b < |s|
      ensures le(s[a], s[b])
    {
      if b == j {
        assert a < j - 1 ==> le(r[a], r[j - 1]);
      }
    }
    assert r == r[..j] + r[j..];
  }

  /** sort.Sort, by insertion. */
  method Sort<T(!new)>(s: seq<T>, le: (T, T) -> bool) returns (r: seq<T>)
    requires TotalPreorder(le)
    ensures SortedBy(r, le) && multiset(r) == multiset(s) && |r| == |s|
  {
    r := [];
    for i := 0 to |s|
      invariant SortedBy(r, le) && |r| == i && multiset(r) == multiset(s[..i])
    {
      var j := |r|;
      while j > 0 && !le(r[j - 1], s[i])
        invariant 0 <= j <= |r|
        invariant forall k :: j <= k < |r| ==> le(s[i], r[k])
      {
        j := j - 1;
      }
      InsertedInOrder(r, le, j, s[i]);
      assert s[..i + 1] == s[..i] + [s[i]];
      r := r[..j] + [s[i]] + r[j..];
    }
    assert s[..|s|] == s;
  }
}
