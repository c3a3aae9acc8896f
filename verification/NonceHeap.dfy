/** The binary heap of nonces behind a transaction list (kernel/tx_list.go, with the sifting that
    the list relies on). */
module NonceHeap {
  function Parent(k: int): int { (k - 1) / 2 }

  /** Heap order between positions whose parent is at or after `lo`, below `n`. */
  ghost predicate From(h: seq<nat>, n: int, lo: int) {
    0 <= n <= |h| && forall k :: 0 < k < n && Parent(k) >= lo ==> h[Parent(k)] <= h[k]
  }

  ghost predicate Heap(h: seq<nat>) { From(h, |h|, 0) }

  /** The first element of a heap is its least. */
  lemma {:induction false} Least(h: seq<nat>, k: nat)
    requires Heap(h) && k < |h|
    ensures h[0] <= h[k]
    decreases k
  {
    if k > 0 { Least(h, Parent(k)); }
  }

  function Swap(h: seq<nat>, i: nat, j: nat): (r: seq<nat>)
    requires i < |h| && j < |h|
    ensures |r| == |h|
  {
    h[i := h[j]][j := h[i]]
  }

  lemma SwapSame(h: seq<nat>, i: nat, j: nat)
    requires i < |h| && j < |h|
    ensures multiset(Swap(h, i, j)) == multiset(h)
  {}

  /** Only `j` may be smaller than its parent; its children are not. */
  ghost predicate Rising(h: seq<nat>, n: int, j: int) {
    && 0 <= j < n <= |h|
    && (forall k :: 0 < k < n && k != j ==> h[Parent(k)] <= h[k])
    && (forall k :: 0 < k < n && Parent(k) == j && j > 0 ==> h[Parent(j)] <= h[k])
  }

  method Up(h0: seq<nat>, n: nat, j0: nat) returns (h: seq<nat>)
    requires Rising(h0, n, j0)
    ensures |h| == |h0| && From(h, n, 0) && multiset(h) == multiset(h0) && h[n..] == h0[n..]
  {
    h := h0;
    var j := j0;
    while j > 0 && h[j] < h[Parent(j)]
      invariant |h| == |h0| && Rising(h, n, j) && multiset(h) == multiset(h0) && h[n..] == h0[n..]
      decreases j
    {
      var i := Parent(j);
      SwapSame(h, i, j);
      RiseStep(h, n, j);
      h := Swap(h, i, j);
      j := i;
    }
  }

  lemma RiseStep(h: seq<nat>, n: nat, j: nat)
    requires Rising(h, n, j) && j > 0 && h[j] < h[Parent(j)]
    ensures Rising(Swap(h, Parent(j), j), n, Parent(j)) && Swap(h, Parent(j), j)[n..] == h[n..]
  {}

  /** Only `i` may be larger than its children; its parent is not. */
  ghost predicate Sinking(h: seq<nat>, n: int, lo: int, i: int) {
    && 0 <= lo <= i && 0 <= n <= |h| && i < |h|
    && (forall k :: 0 < k < n && Parent(k) >= lo && Parent(k) != i ==> h[Parent(k)] <= h[k])
    && (i > lo ==> Parent(i) >= lo && forall k :: 0 < k < n && Parent(k) == i ==> h[Parent(i)] <= h[k])
  }

  /** Position `i0` now holds one of its children, which was smaller. */
  ghost predicate Lifted(h0: seq<nat>, h: seq<nat>, i0: nat, n: nat) {
    && i0 < |h0| == |h| && n <= |h| && h[i0] < h0[i0]
    && exists k :: i0 < k < n && h[i0] == h0[k] && Parent(k) == i0
  }

  /** The same elements, in place from `n` on and outside the subtree of `i0`. */
  ghost predicate Shuffled(h0: seq<nat>, h: seq<nat>, i0: nat, n: nat) {
    && |h| == |h0| && n <= |h| && multiset(h) == multiset(h0)
    && forall k :: 0 <= k < |h| && (k >= n || (k != i0 && Parent(k) < i0)) ==> h[k] == h0[k]
  }

  method SmallerChild(h: seq<nat>, i: nat, n: nat) returns (j: nat)
    requires 2 * i + 1 < n <= |h|
    ensures i < j < n && Parent(j) == i && forall k :: 0 < k < n && Parent(k) == i ==> h[j] <= h[k]
  {
    var j1 := 2 * i + 1;
    j := j1;
    if j1 + 1 < n && h[j1 + 1] < h[j1] { j := j1 + 1; }
  }

  method Down(h0: seq<nat>, i0: nat, n: nat) returns (h: seq<nat>, moved: bool)
    requires i0 < |h0| && From(h0, n, i0 + 1)
    ensures Shuffled(h0, h, i0, n) && From(h, n, i0)
    ensures !moved ==> h == h0
    ensures moved ==> Lifted(h0, h, i0, n)
  {
    hide Shuffled, Lifted;
    h := h0;
    var i := i0;
    ShuffleNone(h, i0, n);
    while 2 * i + 1 < n
      invariant |h| == |h0| && Sinking(h, n, i0, i) && Shuffled(h0, h, i0, n)
      invariant i == i0 ==> h == h0
      invariant i > i0 ==> i < n && Lifted(h0, h, i0, n)
      decreases n - i
    {
      var j := SmallerChild(h, i, n);
      if h[j] >= h[i] { break; }
      SinkStep(h, n, i0, i, j);
      ShuffleStep(h0, h, i0, n, i, j);
      h := Swap(h, i, j);
      i := j;
    }
    moved := i > i0;
  }

  lemma ShuffleNone(h: seq<nat>, i0: nat, n: nat)
    requires n <= |h|
    ensures Shuffled(h, h, i0, n)
  {}

  lemma ShuffleStep(h0: seq<nat>, h: seq<nat>, i0: nat, n: nat, i: nat, j: nat)
    requires Shuffled(h0, h, i0, n) && i0 <= i < j < n && Parent(j) == i && h[j] < h[i] && (i > i0 ==> Parent(i) >= i0)
    requires (i == i0 ==> h == h0) && (i > i0 ==> Lifted(h0, h, i0, n))
    ensures Shuffled(h0, Swap(h, i, j), i0, n) && Lifted(h0, Swap(h, i, j), i0, n)
  {
    SwapSame(h, i, j);
  }

  lemma SinkStep(h: seq<nat>, n: nat, lo: nat, i: nat, j: nat)
    requires Sinking(h, n, lo, i) && i < j < n && Parent(j) == i && h[j] < h[i]
    requires forall k :: 0 < k < n && Parent(k) == i ==> h[j] <= h[k]
    ensures Sinking(Swap(h, i, j), n, lo, j)
  {}

  method Push(h0: seq<nat>, x: nat) returns (h: seq<nat>)
    requires Heap(h0)
    ensures Heap(h) && multiset(h) == multiset(h0) + multiset{x}
  {
    h := Up(h0 + [x], |h0| + 1, |h0|);
  }

  /** Removes the least element. */
  method Pop(h0: seq<nat>) returns (h: seq<nat>, x: nat)
    requires Heap(h0) && h0 != []
    ensures Heap(h) && x == h0[0] && multiset(h0) == multiset(h) + multiset{x} && |h| == |h0| - 1
  {
    var n := |h0| - 1;
    var moved;
    SwapSame(h0, 0, n);
    h, moved := Down(Swap(h0, 0, n), 0, n);
    x := h[n];
    DropLast(h, n);
    h := h[..n];
  }

  lemma DropLast(h: seq<nat>, n: nat)
    requires n + 1 == |h|
    ensures multiset(h) == multiset(h[..n]) + multiset{h[n]}
  {
    assert h == h[..n] + [h[n]];
  }

  /** Removes the element at a position. */
  method Remove(h0: seq<nat>, i: nat) returns (h: seq<nat>)
    requires Heap(h0) && i < |h0|
    ensures Heap(h) && multiset(h0) == multiset(h) + multiset{h0[i]}
  {
    var n := |h0| - 1;
    h := h0;
    if n != i {
      SwapSame(h0, i, n);
      var s := Swap(h0, i, n);
      var moved;
      h, moved := Down(s, i, n);
      if moved {
        RemoveMoved(h0, h, i, n);
      } else {
        RemoveStill(h0, i, n);
        h := Up(h, n, i);
      }
    }
    DropLast(h, n);
    h := h[..n];
  }

  lemma RemoveMoved(h0: seq<nat>, h: seq<nat>, i: nat, n: nat)
    requires Heap(h0) && i < n == |h0| - 1 && |h| == |h0|
    requires Shuffled(Swap(h0, i, n), h, i, n) && From(h, n, i) && Lifted(Swap(h0, i, n), h, i, n)
    ensures From(h, n, 0)
  {
    forall k | 0 < k < n && Parent(k) < i ensures h[Parent(k)] <= h[k] {
      assert h0[Parent(k)] <= h0[k];
      assert Parent(Parent(k)) < i;
    }
  }

  lemma RemoveStill(h0: seq<nat>, i: nat, n: nat)
    requires Heap(h0) && i < n == |h0| - 1 && From(Swap(h0, i, n), n, i)
    ensures Rising(Swap(h0, i, n), n, i)
  {
    assert i > 0 ==> h0[Parent(i)] <= h0[i];
  }

  /** Brings any sequence into heap order. */
  method Init(h0: seq<nat>) returns (h: seq<nat>)
    ensures Heap(h) && multiset(h) == multiset(h0)
  {
    h := h0;
    var i := |h| / 2;
    while i > 0
      invariant 0 <= i <= |h| / 2 && |h| == |h0| && From(h, |h|, i) && multiset(h) == multiset(h0)
    {
      i := i - 1;
      var moved;
      h, moved := Down(h, i, |h|);
    }
  }
}
