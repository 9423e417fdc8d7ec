/** The binary heap operations of Go's `container/heap`, on which the transaction
    pool's nonce index and price index are built, for any strict weak order. */
module Heaps {

  /** `less` is the strict part of a total preorder. */
  ghost predicate StrictWeak<T(!new)>(less: (T, T) -> bool) {
    && (forall x, y :: less(x, y) ==> !less(y, x))
    && (forall x, y, z :: !less(x, y) && !less(y, z) ==> !less(x, z))
  }

  function Parent(k: nat): nat
    requires 0 < k
  {
    (k - 1) / 2
  }

  /** The element at `k` is not smaller than the one above it. */
  ghost predicate Ok<T>(h: seq<T>, less: (T, T) -> bool, k: nat)
    requires 0 < k < |h|
  {
    !less(h[k], h[Parent(k)])
  }

  ghost predicate IsHeap<T>(h: seq<T>, less: (T, T) -> bool) {
    forall k :: 0 < k < |h| ==> Ok(h, less, k)
  }

  /** The root of a heap is a least element. */
  lemma {:induction false} RootIsLeast<T(!new)>(h: seq<T>, less: (T, T) -> bool, k: nat)
    requires StrictWeak(less) && IsHeap(h, less) && k < |h|
    ensures !less(h[k], h[0])
  {
    if k > 0 {
      assert Ok(h, less, k);
      RootIsLeast(h, less, Parent(k));
    }
  }

  function Swap<T>(h: seq<T>, i: nat, j: nat): (s: seq<T>)
    requires i < |h| && j < |h|
    ensures |s| == |h| && s[i] == h[j] && s[j] == h[i]
    ensures forall k :: 0 <= k < |h| && k != i && k != j ==> s[k] == h[k]
    ensures multiset(s) == multiset(h)
  {
    h[i := h[j]][j := h[i]]
  }

  method Up<T(!new)>(h0: seq<T>, less: (T, T) -> bool, j0: nat) returns (h: seq<T>)
    requires StrictWeak(less) && j0 < |h0|
    requires forall k :: 0 < k < |h0| && k != j0 ==> Ok(h0, less, k)
    requires forall k :: 0 < k < |h0| && 0 < j0 && Parent(k) == j0 ==> !less(h0[k], h0[Parent(j0)])
    ensures IsHeap(h, less) && multiset(h) == multiset(h0)
  {
    h := h0;
    var j := j0;
    while 0 < j && less(h[j], h[Parent(j)])
      invariant |h| == |h0| && j < |h| && multiset(h) == multiset(h0)
      invariant forall k :: 0 < k < |h| && k != j ==> Ok(h, less, k)
      invariant forall k :: 0 < k < |h| && 0 < j && Parent(k) == j ==> !less(h[k], h[Parent(j)])
    {
      var i := Parent(j);
      ghost var was := h;
      h := Swap(h, i, j);
      forall k | 0 < k < |h| && k != i
        ensures Ok(h, less, k)
      {
        if k != j { assert Ok(was, less, k); }
      }
      forall k | 0 < k < |h| && 0 < i && Parent(k) == i
        ensures !less(h[k], h[Parent(i)])
      {
        assert Ok(was, less, i);
        if k != j { assert Ok(was, less, k); }
      }
      j := i;
    }
  }

  /** While sinking from `i0` the disorder sits between `i` and its children; only the part with
      parents at or above position `lo` is known to be in order, and `i0` itself may be too small. */
  ghost predicate Sinking<T>(h: seq<T>, less: (T, T) -> bool, i: nat, i0: nat, lo: nat) {
    && (forall k :: 0 < k < |h| && lo <= Parent(k) && k != i0 && Parent(k) != i ==> Ok(h, less, k))
    && (forall k :: 0 < k < |h| && Parent(k) == i && 0 < i && lo <= Parent(i) ==> !less(h[k], h[Parent(i)]))
  }

  ghost predicate Sunk<T>(h: seq<T>, less: (T, T) -> bool, i0: nat, lo: nat) {
    forall k :: 0 < k < |h| && lo <= Parent(k) && k != i0 ==> Ok(h, less, k)
  }

  method Down<T(!new)>(h0: seq<T>, less: (T, T) -> bool, i0: nat, ghost lo: nat)
    returns (h: seq<T>, moved: bool)
    requires StrictWeak(less) && lo <= i0 && Sinking(h0, less, i0, i0, lo)
    ensures |h| == |h0| && multiset(h) == multiset(h0)
    ensures Sunk(h, less, i0, lo)
    ensures !moved ==> h == h0
    ensures moved && 0 < i0 < |h| && lo <= Parent(i0) ==> Ok(h, less, i0)
  {
    h := h0;
    var i := i0;
    while 2 * i + 1 < |h|
      invariant i0 <= i && |h| == |h0| && multiset(h) == multiset(h0)
      invariant i == i0 ==> h == h0
      invariant i != i0 ==> i < |h| && (0 < i0 && lo <= Parent(i0) ==> Ok(h, less, i0))
      invariant Sinking(h, less, i, i0, lo)
      decreases |h| - i
    {
      var j := SmallerChild(h, less, i);
      if !less(h[j], h[i]) {
        Settled(h, less, i, i0, lo);
        return h, i > i0;
      }
      SunkStep(h, less, i, i0, lo);
      h := Swap(h, i, j);
      i := j;
    }
    moved := i > i0;
  }

  function SmallerChild<T>(h: seq<T>, less: (T, T) -> bool, i: nat): (j: nat)
    requires 2 * i + 1 < |h|
    ensures i < j < |h| && Parent(j) == i
  {
    if 2 * i + 2 < |h| && less(h[2 * i + 2], h[2 * i + 1]) then 2 * i + 2 else 2 * i + 1
  }

  lemma SmallerChildIsLeast<T(!new)>(h: seq<T>, less: (T, T) -> bool, i: nat, k: nat)
    requires StrictWeak(less) && 2 * i + 1 < |h| && 0 < k < |h| && Parent(k) == i
    ensures !less(h[k], h[SmallerChild(h, less, i)])
  {
    assert k == 2 * i + 1 || k == 2 * i + 2;
  }

  lemma Settled<T(!new)>(h: seq<T>, less: (T, T) -> bool, i: nat, i0: nat, lo: nat)
    requires StrictWeak(less) && Sinking(h, less, i, i0, lo)
    requires 2 * i + 1 < |h| && !less(h[SmallerChild(h, less, i)], h[i])
    ensures Sunk(h, less, i0, lo)
  {
    forall k | 0 < k < |h| && lo <= Parent(k) && k != i0
      ensures Ok(h, less, k)
    {
      if Parent(k) == i { SmallerChildIsLeast(h, less, i, k); }
    }
  }

  /** One step of `Down`: exchanging `i` with its smaller child moves the disorder there. */
  lemma SunkStep<T(!new)>(was: seq<T>, less: (T, T) -> bool, i: nat, i0: nat, lo: nat)
    requires StrictWeak(less) && lo <= i0 <= i && Sinking(was, less, i, i0, lo)
    requires 2 * i + 1 < |was| && less(was[SmallerChild(was, less, i)], was[i])
    requires i != i0 ==> (0 < i0 && lo <= Parent(i0) ==> Ok(was, less, i0))
    ensures var j := SmallerChild(was, less, i);
      var h := Swap(was, i, j);
      && Sinking(h, less, j, i0, lo)
      && (0 < i0 && lo <= Parent(i0) ==> Ok(h, less, i0))
  {
    var j := SmallerChild(was, less, i);
    var h := Swap(was, i, j);
    forall k | 0 < k < |h| && lo <= Parent(k) && k != i0 && Parent(k) != j
      ensures Ok(h, less, k)
    {
      if Parent(k) == i {
        SmallerChildIsLeast(was, less, i, k);
      } else {
        assert Ok(was, less, k);
      }
    }
    forall k | 0 < k < |h| && Parent(k) == j && lo <= Parent(j)
      ensures !less(h[k], h[Parent(j)])
    {
      assert Ok(was, less, k);
    }
  }

  method Push<T(!new)>(h0: seq<T>, less: (T, T) -> bool, x: T) returns (h: seq<T>)
    requires StrictWeak(less) && IsHeap(h0, less)
    ensures IsHeap(h, less) && multiset(h) == multiset(h0) + multiset{x}
  {
    var g := h0 + [x];
    forall k | 0 < k < |g| && k != |h0|
      ensures Ok(g, less, k)
    {
      assert Ok(h0, less, k);
    }
    h := Up(g, less, |h0|);
  }

  method Pop<T(!new)>(h0: seq<T>, less: (T, T) -> bool) returns (x: T, h: seq<T>)
    requires StrictWeak(less) && IsHeap(h0, less) && |h0| > 0
    ensures x == h0[0] && IsHeap(h, less) && multiset(h0) == multiset(h) + multiset{x}
    ensures |h| == |h0| - 1
  {
    h := Remove(h0, less, 0);
    x := h0[0];
  }

  method Remove<T(!new)>(h0: seq<T>, less: (T, T) -> bool, i: nat) returns (h: seq<T>)
    requires StrictWeak(less) && IsHeap(h0, less) && i < |h0|
    ensures IsHeap(h, less) && multiset(h0) == multiset(h) + multiset{h0[i]}
    ensures |h| == |h0| - 1
  {
    var n := |h0| - 1;
    var g := Swap(h0, i, n)[..n];
    assert Swap(h0, i, n) == g + [h0[i]];
    RemoveReady(h0, less, i, g);
    h := g;
    if n != i {
      var moved;
      h, moved := Down(g, less, i, 0);
      if !moved {
        h := Up(h, less, i);
      }
    }
  }

  /** With the element to be removed exchanged with the last one and cut off, the rest is ready
      for `Down`, and for `Up` should `Down` not move anything. */
  lemma RemoveReady<T(!new)>(h0: seq<T>, less: (T, T) -> bool, i: nat, g: seq<T>)
    requires StrictWeak(less) && IsHeap(h0, less) && i < |h0|
    requires g == Swap(h0, i, |h0| - 1)[..|h0| - 1]
    ensures i == |h0| - 1 ==> IsHeap(g, less)
    ensures Sinking(g, less, i, i, 0)
    ensures forall k :: 0 < k < |g| && 0 < i && Parent(k) == i ==> !less(g[k], g[Parent(i)])
  {
    forall k | 0 < k < |g| && k != i && Parent(k) != i
      ensures Ok(g, less, k)
    {
      assert Ok(h0, less, k);
    }
    forall k | 0 < k < |g| && Parent(k) == i && 0 < i
      ensures !less(g[k], g[Parent(i)])
    {
      assert Ok(h0, less, k) && Ok(h0, less, i);
    }
  }

  method Init<T(!new)>(h0: seq<T>, less: (T, T) -> bool) returns (h: seq<T>)
    requires StrictWeak(less)
    ensures IsHeap(h, less) && multiset(h) == multiset(h0)
  {
    h := h0;
    var i := |h| / 2;
    while i > 0
      invariant 0 <= i <= |h| / 2 && |h| == |h0| && multiset(h) == multiset(h0)
      invariant forall k :: 0 < k < |h| && i <= Parent(k) ==> Ok(h, less, k)
    {
      i := i - 1;
      var moved;
      h, moved := Down(h, less, i, i);
    }
  }
}
