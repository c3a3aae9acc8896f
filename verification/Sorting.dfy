/** Insertion sort by any weak order. */
module Sorting {
  /** Asymmetric, and not being less is transitive. */
  ghost predicate WeakOrder<T(!new)>(less: (T, T) -> bool) {
    && (forall a, b :: less(a, b) ==> !less(b, a))
    && (forall a, b, c :: !less(b, a) && !less(c, b) ==> !less(c, a))
  }

  ghost predicate InOrder<T>(xs: seq<T>, less: (T, T) -> bool) {
    forall i, j :: 0 <= i < j < |xs| ==> !less(xs[j], xs[i])
  }

  method Sort<T(!new)>(xs: seq<T>, less: (T, T) -> bool) returns (r: seq<T>)
    requires WeakOrder(less)
    ensures multiset(r) == multiset(xs) && InOrder(r, less)
  {
    hide WeakOrder;
    r := [];
    for i := 0 to |xs|
      invariant multiset(r) == multiset(xs[..i]) && InOrder(r, less)
    {
      assert xs[..i + 1] == xs[..i] + [xs[i]];
      r := Place(r, xs[i], less);
    }
    assert xs[..|xs|] == xs;
  }

  method Place<T(!new)>(xs: seq<T>, x: T, less: (T, T) -> bool) returns (r: seq<T>)
    requires WeakOrder(less) && InOrder(xs, less)
    ensures multiset(r) == multiset(xs) + multiset{x} && InOrder(r, less)
  {
    hide WeakOrder, InOrder;
    var k := |xs|;
    while k > 0 && less(x, xs[k - 1])
      invariant 0 <= k <= |xs| && forall j :: k <= j < |xs| ==> less(x, xs[j])
    {
      k := k - 1;
    }
    r := xs[..k] + [x] + xs[k..];
    PlacedBag(xs, x, k);
    Placed(xs, x, k, less, r);
  }

  lemma PlacedBag<T>(xs: seq<T>, x: T, k: nat)
    requires k <= |xs|
    ensures multiset(xs[..k] + [x] + xs[k..]) == multiset(xs) + multiset{x}
  {
    assert xs == xs[..k] + xs[k..];
  }

  lemma Placed<T(!new)>(xs: seq<T>, x: T, k: nat, less: (T, T) -> bool, r: seq<T>)
    requires WeakOrder(less) && InOrder(xs, less) && k <= |xs| && r == xs[..k] + [x] + xs[k..]
    requires (forall j :: k <= j < |xs| ==> less(x, xs[j])) && (k > 0 ==> !less(x, xs[k - 1]))
    ensures InOrder(r, less)
  {
    hide WeakOrder;
    forall i, j | 0 <= i < j < |r| ensures !less(r[j], r[i]) {
      if j == k {
        NotBelow(xs, x, k, less, i);
      } else if i == k {
        NotAbove(less, x, xs[j - 1]);
      }
    }
  }

  lemma NotAbove<T(!new)>(less: (T, T) -> bool, a: T, b: T)
    requires WeakOrder(less) && less(a, b)
    ensures !less(b, a)
  {}

  lemma NotBelow<T(!new)>(xs: seq<T>, x: T, k: nat, less: (T, T) -> bool, i: nat)
    requires WeakOrder(less) && InOrder(xs, less) && i < k <= |xs| && !less(x, xs[k - 1])
    ensures !less(x, xs[i])
  {
    if i < k - 1 { assert !less(xs[k - 1], xs[i]); }
  }
}
