/** The tree of known headers, the ancestors of a header and its total difficulty. */
module Ancestry {
  import opened Bytes

  /** `rest` stands for the fields that do not matter here. */
  datatype Header = Header(parent: Digest, number: nat, difficulty: int, rest: Blob)

  type Headers = map<Digest, Header>

  /** Every header but the first has its parent in the tree, one number below. */
  ghost predicate Rooted(tree: Headers, genesis: Digest) {
    && genesis in tree && tree[genesis].number == 0
    && forall d :: d in tree && d != genesis ==> Child(tree, tree[d])
  }

  ghost predicate Child(tree: Headers, hd: Header) {
    hd.parent in tree && hd.number == tree[hd.parent].number + 1
  }

  /** The ancestor of `d` at height `k`. */
  ghost function Ancestor(tree: Headers, genesis: Digest, d: Digest, k: nat): (r: Digest)
    requires Rooted(tree, genesis) && d in tree && k <= tree[d].number
    ensures r in tree && tree[r].number == k
    decreases tree[d].number
  {
    if tree[d].number == k then d else Ancestor(tree, genesis, tree[d].parent, k)
  }

  lemma AncestorParent(tree: Headers, genesis: Digest, d: Digest, k: nat)
    requires Rooted(tree, genesis) && d in tree && k < tree[d].number
    ensures tree[d].parent in tree && k <= tree[tree[d].parent].number
    ensures Ancestor(tree, genesis, d, k) == Ancestor(tree, genesis, tree[d].parent, k)
  {}

  lemma {:induction false} AncestorTrans(tree: Headers, genesis: Digest, d: Digest, j: nat, k: nat)
    requires Rooted(tree, genesis) && d in tree && k <= j <= tree[d].number
    ensures Ancestor(tree, genesis, Ancestor(tree, genesis, d, j), k) == Ancestor(tree, genesis, d, k)
    decreases tree[d].number
  {
    if j < tree[d].number { AncestorTrans(tree, genesis, tree[d].parent, j, k); }
  }

  /** Consecutive ancestors are linked. */
  lemma AncestorLink(tree: Headers, genesis: Digest, d: Digest, k: nat)
    requires Rooted(tree, genesis) && d in tree && 0 < k <= tree[d].number
    ensures tree[Ancestor(tree, genesis, d, k)].parent == Ancestor(tree, genesis, d, k - 1)
  {
    AncestorTrans(tree, genesis, d, k, k - 1);
  }

  lemma AncestorZero(tree: Headers, genesis: Digest, d: Digest)
    requires Rooted(tree, genesis) && d in tree
    ensures Ancestor(tree, genesis, d, 0) == genesis
  {}

  /** A larger tree has the same ancestors. */
  lemma {:induction false} AncestorGrows(tree: Headers, tree': Headers, genesis: Digest, d: Digest, k: nat)
    requires Rooted(tree, genesis) && Rooted(tree', genesis) && Larger(tree, tree') && d in tree && k <= tree[d].number
    ensures Ancestor(tree', genesis, d, k) == Ancestor(tree, genesis, d, k)
    decreases tree[d].number
  {
    if k < tree[d].number { AncestorGrows(tree, tree', genesis, tree[d].parent, k); }
  }

  ghost predicate Larger(tree: Headers, tree': Headers) { forall d :: d in tree ==> d in tree' && tree'[d] == tree[d] }

  /** Total difficulty: the sum over a header and its ancestors. */
  ghost function Td(tree: Headers, genesis: Digest, d: Digest): int
    requires Rooted(tree, genesis) && d in tree
    decreases tree[d].number
  {
    tree[d].difficulty + if d == genesis then 0 else Td(tree, genesis, tree[d].parent)
  }

  lemma {:induction false} TdGrows(tree: Headers, tree': Headers, genesis: Digest, d: Digest)
    requires Rooted(tree, genesis) && Rooted(tree', genesis) && Larger(tree, tree') && d in tree
    ensures Td(tree', genesis, d) == Td(tree, genesis, d)
    decreases tree[d].number
  {
    if d != genesis { TdGrows(tree, tree', genesis, tree[d].parent); }
  }

  lemma RootedAdd(tree: Headers, genesis: Digest, d: Digest, hd: Header)
    requires Rooted(tree, genesis) && Child(tree, hd) && (d in tree ==> tree[d] == hd)
    ensures Rooted(tree[d := hd], genesis) && Larger(tree, tree[d := hd])
  {
    var t := tree[d := hd];
    assert Larger(tree, t);
    forall e | e in t && e != genesis ensures Child(t, t[e]) {}
  }

  /** A number-to-hash index that is exactly the chain of `head`. */
  ghost predicate IndexOf(canon: map<int, Digest>, tree: Headers, genesis: Digest, head: Digest)
    requires Rooted(tree, genesis) && head in tree
  {
    && (forall k :: k in canon <==> 0 <= k <= tree[head].number)
    && forall k: nat :: k <= tree[head].number ==> canon[k] == Ancestor(tree, genesis, head, k)
  }

  /** No two entries of the run have the same hash, and none hashes to zero. */
  ghost predicate Distinct<T(!new)>(hash: T -> Digest, u: iset<T>) {
    && (forall a, b :: a in u && b in u && hash(a) == hash(b) ==> a == b)
    && (forall a :: a in u ==> hash(a) != Zero())
  }

  /** Entries are filed under their hash. */
  ghost predicate Sealed<T(!new)>(m: map<Digest, T>, hash: T -> Digest, u: iset<T>) {
    forall d :: d in m ==> m[d] in u && hash(m[d]) == d
  }
}
