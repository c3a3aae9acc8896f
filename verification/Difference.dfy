/** The difference iterator (fast/iterator.go): it walks two tries side by side, skips
    subtrees with equal hashes, and yields what the second has and the first has not. */
module Difference {
  import opened Bytes
  import opened Hex
  import opened Tree
  import opened Node
  import opened Memory
  import opened Preorder
  import opened Iterator
  import opened Trie
  import Binding

  // --- comparing two positions ---

  /** Byte order, as a sign. */
  function CompareBytes(a: Blob, b: Blob): (r: int)
    ensures r == -1 || r == 0 || r == 1
    ensures r == 0 <==> a == b
  {
    if a == b then 0
    else if a == [] then -1
    else if b == [] then 1
    else if a[0] != b[0] then (if a[0] < b[0] then -1 else 1)
    else
      assert a == [a[0]] + a[1..] && b == [b[0]] + b[1..];
      CompareBytes(a[1..], b[1..])
  }

  function ComparePaths(a: Key, b: Key): int {
    if a == b then 0 else if Less(a, b) then -1 else 1
  }

  /** Path first, then hash (absent counts as zero), then the value at leaves. */
  function CompareNodes(ap: Key, ah: Digest, av: Blob, bp: Key, bh: Digest, bv: Blob): (r: int)
    ensures r == -1 || r == 0 || r == 1
    ensures r == 0 ==> ap == bp && ah == bh && (HasTerm(ap) ==> av == bv)
    ensures r != 0 && ap == bp ==> ah != bh || (HasTerm(ap) && av != bv)
    ensures r == -1 ==> ap == bp || Less(ap, bp)
    ensures r == 1 ==> ap == bp || !Less(ap, bp)
  {
    var c := ComparePaths(ap, bp);
    if c != 0 then c
    else if CompareBytes(ah, bh) != 0 then CompareBytes(ah, bh)
    else if HasTerm(ap) && HasTerm(bp) then CompareBytes(av, bv)
    else 0
  }

  // --- what should come out ---

  /** The leaves of `s` that are not among `a`. */
  ghost function Keep(s: seq<Item>, a: seq<Item>): seq<Item> {
    if s == [] then []
    else (if s[0].tree.Leaf? && s[0] !in a then [s[0]] else []) + Keep(s[1..], a)
  }

  lemma KeepNone(a: seq<Item>)
    ensures Keep([], a) == []
  {}

  lemma KeepCons(x: Item, s: seq<Item>, a: seq<Item>)
    ensures Keep([x] + s, a) == (if x.tree.Leaf? && x !in a then [x] else []) + Keep(s, a)
  {
    Cons(x, s);
  }

  /** Leaves that are among `a` do not come out. */
  lemma {:induction false} KeepSkip(s: seq<Item>, rest: seq<Item>, a: seq<Item>)
    requires forall x :: x in s && x.tree.Leaf? ==> x in a
    ensures Keep(s + rest, a) == Keep(rest, a)
  {
    if s == [] {
      assert s + rest == rest;
    } else {
      assert (s + rest)[0] == s[0] && (s + rest)[1..] == s[1..] + rest;
      KeepSkip(s[1..], rest, a);
      assert [] + Keep(rest, a) == Keep(rest, a);
    }
  }

  /** No leaf still to come on the right that `a` has was passed on the left. */
  ghost predicate NotPassed(right: seq<Item>, a: seq<Item>, left: seq<Item>) {
    forall x :: x in right && x.tree.Leaf? && x in a ==> x in left
  }

  lemma SortedHead(x: Item, s: seq<Item>)
    requires Sorted([x] + s)
    ensures Sorted(s) && forall y :: y in s ==> Less(x.path, y.path) && y.path != x.path
  {
    forall i, j | 0 <= i < j < |s| ensures Less(s[i].path, s[j].path) {
      assert ([x] + s)[i + 1] == s[i] && ([x] + s)[j + 1] == s[j];
    }
    forall y | y in s ensures Less(x.path, y.path) && y.path != x.path {
      var i :| 0 <= i < |s| && s[i] == y;
      assert ([x] + s)[0] == x && ([x] + s)[i + 1] == y;
      LessAsym(x.path, y.path);
    }
  }

  /** Dropping the left head is safe when it is smaller than everything on the right, or
      differs from the only item on the right with its path. */
  lemma DropLeft(y: Item, right: seq<Item>, a: seq<Item>, x: Item, left: seq<Item>)
    requires Sorted([y] + right) && NotPassed([y] + right, a, [x] + left)
    requires Less(x.path, y.path) || (x.path == y.path && (y.tree.Leaf? ==> x != y))
    ensures NotPassed([y] + right, a, left)
  {
    SortedHead(y, right);
    forall z | z in [y] + right && z.tree.Leaf? && z in a ensures z in left {
      if z != y {
        assert z in right;
        if Less(x.path, y.path) { LessTrans(x.path, y.path, z.path); }
        LessIrreflexive(x.path);
      } else {
        LessIrreflexive(y.path);
      }
    }
  }

  /** A right head in front of everything on the left is not in `a`. */
  lemma Unmatched(y: Item, right: seq<Item>, a: seq<Item>, x: Item, left: seq<Item>)
    requires Sorted([x] + left) && NotPassed([y] + right, a, [x] + left)
    requires !Less(x.path, y.path) && (x.path == y.path && y.tree.Leaf? ==> x != y)
    ensures y.tree.Leaf? ==> y !in a
  {
    if y.tree.Leaf? && y in a {
      assert y in [x] + left;
      SortedHead(x, left);
    }
  }

  /** Dropping both heads at equal paths. */
  lemma DropBoth(y: Item, right: seq<Item>, a: seq<Item>, x: Item, left: seq<Item>)
    requires Sorted([y] + right) && NotPassed([y] + right, a, [x] + left) && x.path == y.path
    ensures NotPassed(right, a, left)
  {
    SortedHead(y, right);
    forall z | z in right && z.tree.Leaf? && z in a ensures z in left {
      assert z in [y] + right;
    }
  }

  /** Dropping both heads with the same subtree below them. */
  lemma DropSubtree(y: Item, below: seq<Item>, right: seq<Item>, a: seq<Item>, x: Item, left: seq<Item>)
    requires Sorted([y] + (below + right)) && NotPassed([y] + (below + right), a, [x] + (below + left)) && x == y
    ensures NotPassed(right, a, left)
  {
    SortedHead(y, below + right);
    forall z | z in right && z.tree.Leaf? && z in a ensures z in left {
      assert z in below + right;
      assert z in below + left;
      if z in below {
        var i :| 0 <= i < |below| && below[i] == z;
        var j :| 0 <= j < |right| && right[j] == z;
        assert (below + right)[i] == z && (below + right)[|below| + j] == z;
        LessIrreflexive(z.path);
      }
    }
  }

  // --- the same for inner nodes ---

  /** The hash shown at a node: none at leaves, and none at embedded nodes. */
  ghost function Shown(h: Hasher, x: Item): Digest {
    if Inner(x.tree) && (x.path == [] || Hashed(h, x.tree)) then h(Enc(h, x.tree)) else Zero()
  }

  /** The same path and the same hash, and the same value at leaves. */
  ghost predicate Same(h: Hasher, z: Item, y: Item) {
    z.path == y.path && Shown(h, z) == Shown(h, y) && (HasTerm(y.path) ==> z == y)
  }

  ghost predicate Matched(h: Hasher, y: Item, a: seq<Item>) { exists z :: z in a && Same(h, z, y) }

  /** The nodes of `s` unlike every node of `a`. */
  ghost function News(h: Hasher, s: seq<Item>, a: seq<Item>): seq<Item> {
    if s == [] then []
    else (if Matched(h, s[0], a) then [] else [s[0]]) + News(h, s[1..], a)
  }

  lemma NewsNone(h: Hasher, a: seq<Item>)
    ensures News(h, [], a) == []
  {}

  lemma NewsCons(h: Hasher, x: Item, s: seq<Item>, a: seq<Item>)
    ensures News(h, [x] + s, a) == (if Matched(h, x, a) then [] else [x]) + News(h, s, a)
  {
    Cons(x, s);
  }

  lemma {:induction false} NewsSkip(h: Hasher, s: seq<Item>, rest: seq<Item>, a: seq<Item>)
    requires forall x :: x in s ==> Matched(h, x, a)
    ensures News(h, s + rest, a) == News(h, rest, a)
  {
    if s == [] {
      assert s + rest == rest;
    } else {
      assert (s + rest)[0] == s[0] && (s + rest)[1..] == s[1..] + rest;
      NewsSkip(h, s[1..], rest, a);
      assert [] + News(h, rest, a) == News(h, rest, a);
    }
  }

  /** No node of `a` like one still to come on the right was passed on the left. */
  ghost predicate NoneBehind(h: Hasher, right: seq<Item>, a: seq<Item>, left: seq<Item>) {
    forall w, z :: w in right && z in a && Same(h, z, w) ==> z in left
  }

  /** At the start everything is ahead. */
  lemma AllAhead(h: Hasher, right: seq<Item>, a: seq<Item>)
    ensures NotPassed(right, a, a) && NoneBehind(h, right, a, a) && Among(a, a)
  {}

  lemma PassLeft(h: Hasher, y: Item, right: seq<Item>, a: seq<Item>, x: Item, left: seq<Item>)
    requires Sorted([y] + right) && NoneBehind(h, [y] + right, a, [x] + left)
    requires Less(x.path, y.path) || (x.path == y.path && !Same(h, x, y))
    ensures NoneBehind(h, [y] + right, a, left)
  {
    SortedHead(y, right);
    LessIrreflexive(x.path);
    forall w, z | w in [y] + right && z in a && Same(h, z, w) ensures z in left {
      assert z in [x] + left;
      if z == x && w != y && Less(x.path, y.path) {
        assert w in right;
        LessTrans(x.path, y.path, w.path);
      }
    }
  }

  lemma NotMatched(h: Hasher, y: Item, right: seq<Item>, a: seq<Item>, x: Item, left: seq<Item>)
    requires Sorted([x] + left) && NoneBehind(h, [y] + right, a, [x] + left)
    requires !Less(x.path, y.path) && !Same(h, x, y)
    ensures !Matched(h, y, a)
  {
    SortedHead(x, left);
    assert y in [y] + right;
    assert forall z :: z in [x] + left ==> !Same(h, z, y);
  }

  /** With nothing left, nothing to come is matched. */
  lemma AllNew(h: Hasher, y: Item, right: seq<Item>, a: seq<Item>)
    requires NoneBehind(h, [y] + right, a, [])
    ensures !Matched(h, y, a) && NoneBehind(h, right, a, [])
  {
    forall z | z in a ensures !Same(h, z, y) {
      assert y in [y] + right;
    }
    forall w, z | w in right && z in a && Same(h, z, w) ensures z in [] {
      assert w in [y] + right;
    }
  }

  lemma PassRight(h: Hasher, y: Item, right: seq<Item>, a: seq<Item>, left: seq<Item>)
    requires NoneBehind(h, [y] + right, a, left)
    ensures NoneBehind(h, right, a, left)
  {
    forall w, z | w in right && z in a && Same(h, z, w) ensures z in left {
      assert w in [y] + right;
    }
  }

  lemma PassBoth(h: Hasher, y: Item, right: seq<Item>, a: seq<Item>, x: Item, left: seq<Item>)
    requires Sorted([y] + right) && NoneBehind(h, [y] + right, a, [x] + left) && x in a && Same(h, x, y)
    ensures NoneBehind(h, right, a, left) && News(h, [y] + right, a) == News(h, right, a)
  {
    SortedHead(y, right);
    forall w, z | w in right && z in a && Same(h, z, w) ensures z in left {
      assert w in [y] + right;
      assert z in [x] + left;
    }
    NewsSkip(h, [y], right, a);
  }

  lemma PassSubtree(h: Hasher, y: Item, below: seq<Item>, right: seq<Item>, a: seq<Item>, left: seq<Item>)
    requires Sorted([y] + (below + right)) && NoneBehind(h, [y] + (below + right), a, [y] + (below + left))
    requires forall z :: z in [y] + (below + left) ==> z in a
    ensures NoneBehind(h, right, a, left) && News(h, [y] + (below + right), a) == News(h, right, a)
  {
    hide Less, Shown;
    SortedHead(y, below + right);
    forall w, z | w in right && z in a && Same(h, z, w) ensures z in left {
      assert w in below + right && w in [y] + (below + right);
      assert z in [y] + (below + left);
      if z in below { BelowFirst(below, right, z, w); }
    }
    forall z | z in [y] + below ensures Matched(h, z, a) {
      assert z in [y] + (below + left);
      assert Same(h, z, z);
    }
    NewsSkip(h, [y] + below, right, a);
    Assoc([y], below, right);
  }

  lemma BelowFirst(below: seq<Item>, right: seq<Item>, z: Item, w: Item)
    requires Sorted(below + right) && z in below && w in right
    ensures z.path != w.path
  {
    var i :| 0 <= i < |below| && below[i] == z;
    var j :| 0 <= j < |right| && right[j] == w;
    assert (below + right)[i] == z && (below + right)[|below| + j] == w;
    LessIrreflexive(z.path);
  }

  /** Leaves are recognised by their path. */
  ghost predicate TermOk(s: seq<Item>) { forall x :: x in s ==> (HasTerm(x.path) <==> x.tree.Leaf?) }

  ghost predicate Sane(s: seq<Item>) { Sorted(s) && TermOk(s) }

  lemma SaneTail(x: Item, s: seq<Item>)
    requires Sane([x] + s)
    ensures Sane(s) && (HasTerm(x.path) <==> x.tree.Leaf?)
  {
    SortedHead(x, s);
    assert x in [x] + s;
    forall y | y in s ensures HasTerm(y.path) <==> y.tree.Leaf? { assert y in [x] + s; }
  }

  lemma SaneEmpty(a: seq<Item>)
    ensures Sane([]) && Among([], a)
  {}

  lemma SaneRest(s: seq<Item>, r: seq<Item>)
    requires Sane(s + r)
    ensures Sane(r)
  {
    forall i, j | 0 <= i < j < |r| ensures Less(r[i].path, r[j].path) {
      assert (s + r)[|s| + i] == r[i] && (s + r)[|s| + j] == r[j];
    }
    forall y | y in r ensures HasTerm(y.path) <==> y.tree.Leaf? { assert y in s + r; }
  }

  /** Two heads at the same path, equal if they are leaves, can be dropped. */
  lemma DropEqual(y: Item, right: seq<Item>, a: seq<Item>, x: Item, left: seq<Item>)
    requires Sorted([y] + right) && NotPassed([y] + right, a, [x] + left)
    requires x.path == y.path && (y.tree.Leaf? ==> y in a)
    ensures NotPassed(right, a, left) && Keep([y] + right, a) == Keep(right, a)
  {
    DropBoth(y, right, a, x, left);
    KeepSkip([y], right, a);
  }

  /** So can two equal heads together with the subtree below them. */
  lemma DropSame(y: Item, below: seq<Item>, right: seq<Item>, a: seq<Item>, left: seq<Item>)
    requires Sorted([y] + (below + right)) && NotPassed([y] + (below + right), a, [y] + (below + left))
    requires forall z :: z in [y] + (below + left) ==> z in a
    ensures NotPassed(right, a, left) && Keep([y] + (below + right), a) == Keep(right, a)
  {
    DropSubtree(y, below, right, a, y, left);
    forall z | z in [y] + below ensures z in a { assert z in [y] + (below + left); }
    KeepSkip([y] + below, right, a);
    Assoc([y], below, right);
  }

  /** A head that is not among `a` comes out. */
  lemma Emit(y: Item, right: seq<Item>, a: seq<Item>)
    requires y.tree.Leaf? ==> y !in a
    ensures Keep([y] + right, a) == (if y.tree.Leaf? then [y] else []) + Keep(right, a)
  {
    KeepCons(y, right, a);
  }

  // --- one iterator's position ---

  ghost predicate Among(s: seq<Item>, a: seq<Item>) { forall x :: x in s ==> x in a }

  /** Position and everything behind it; nothing once the iterator has ended. */
  ghost function Ahead(it: NodeIterator): seq<Item>
    requires |it.stack| == |it.trees|
    reads it
  {
    if it.stack == [] then [] else [it.Current()] + it.Todo()
  }

  function HashAt(it: NodeIterator): Digest
    reads it
  {
    if it.stack == [] || it.stack[|it.stack| - 1].hash == None then Zero()
    else it.stack[|it.stack| - 1].hash.value
  }

  function BlobAt(it: NodeIterator): Blob
    reads it
  {
    if it.stack != [] && it.stack[|it.stack| - 1].node.Value? then it.stack[|it.stack| - 1].node.blob else []
  }

  /** Nothing below the current node has been visited yet. */
  ghost predicate Untouched(it: NodeIterator)
    requires |it.stack| == |it.trees|
    reads it
  {
    it.stack != [] ==> it.Todo() == Below(it.Current().tree, it.path) + it.TodoSkip()
  }

  /** A hash other than zero is the hash of the subtree the iterator is at. */
  lemma HashAtTop(it: NodeIterator)
    requires it.Valid()
    ensures it.stack == [] ==> it.path == [] && HashAt(it) == Zero()
    ensures it.stack != [] && HashAt(it) != Zero() ==>
      var t := it.Current().tree;
      Inner(t) && Canon(t) && Within(it.h, it.e.u, t) && HashAt(it) == it.h(Enc(it.h, t))
    ensures it.stack != [] && it.Current().tree.Leaf? ==> BlobAt(it) == it.Current().tree.value && HashAt(it) == Zero()
  {}

  /** The root's hash can be told from the empty trie's. */
  ghost predicate Clear(h: Hasher, t: Tree) {
    Inner(t) ==> RootHash(h, t) != RootHash(h, Empty)
  }

  /** It always can if the empty trie's encoding is among the blobs without collisions. */
  lemma ClearWithin(h: Hasher, u: iset<Blob>, t: Tree)
    requires Universe(h, u) && Enc(h, Empty) in u && Canon(t) && Within(h, u, t)
    ensures Clear(h, t)
  {
    Binding.RootBinds(h, u, Empty, t);
  }

  lemma ShownAt(it: NodeIterator)
    requires it.Valid() && it.stack != [] && Clear(it.h, it.tree)
    ensures HashAt(it) == Shown(it.h, it.Current())
  {
    hide Chain, Enc, Repr, Within, Avail, Cached, Canon;
    TopFrame(it.e, it.stack, it.trees, it.path);
    DeeperPath(it.e, it.stack, it.trees, it.path);
  }

  lemma SaneAhead(it: NodeIterator)
    requires |it.stack| == |it.trees| && it.stack != [] && Sane(Ahead(it))
    ensures Sane(it.Todo())
  {
    hide Sane;
    SaneTail(it.Current(), it.Todo());
  }

  method Step(it: NodeIterator, descend: bool) returns (ok: bool)
    requires it.Valid() && !it.err.SeekFailed?
    modifies it
    ensures it.Valid() && !it.err.SeekFailed?
    ensures ok ==> it.err.Fine? && it.stack != [] && Untouched(it) && Ahead(it) == old(it.Upcoming(descend))
    ensures !ok ==> !it.err.Fine? && (old(it.stack) == [] ==> it.stack == [])
    ensures !ok && it.err.End? ==> old(it.Upcoming(descend)) == [] && it.Todo() == []
    ensures !ok && it.err.MissingAt? ==> it.Todo() == old(it.Upcoming(descend))
    ensures !ok && it.e.full ==> it.err.End?
    ensures old(it.err).Fine? && it.err.End? ==> it.stack == []
    ensures old(it.err).MissingAt? && old(it.stack) == [] && it.RootMissing() ==> !ok && it.err.MissingAt?
    ensures old(it.stack) == [] && it.err.MissingAt? ==> it.RootMissing()
    ensures it.moves == old(it.moves) + if ok then 1 else 0
  {
    hide Chain, Rest, Pre, Below, Canon, Repr, Within, Avail, Enc, Nibbles, AtLeast;
    ok := it.Next(descend);
  }

  function Compare(a: NodeIterator, b: NodeIterator): (r: int)
    reads a, b
    ensures r == -1 || r == 0 || r == 1
  {
    CompareNodes(a.path, HashAt(a), BlobAt(a), b.path, HashAt(b), BlobAt(b))
  }

  ghost predicate TermAt(it: NodeIterator)
    requires |it.stack| == |it.trees| && it.stack != []
    reads it
  {
    HasTerm(it.path) <==> it.Current().tree.Leaf?
  }

  /** What the comparison says about the nodes compared. */
  lemma Compared(a: NodeIterator, b: NodeIterator)
    requires a.Valid() && b.Valid() && a.h == b.h && a.e.u == b.e.u
    requires b.stack != [] && TermAt(b) && (a.stack != [] ==> TermAt(a))
    ensures a.stack == [] && Compare(a, b) != -1 ==> !b.Current().tree.Leaf?
    ensures a.stack == [] ==> HashAt(a) == Zero()
    ensures a.stack != [] ==>
      var x, y := a.Current(), b.Current();
      && (Compare(a, b) == -1 ==> Less(x.path, y.path) || (x.path == y.path && (y.tree.Leaf? ==> x != y)))
      && (Compare(a, b) == 1 ==> !Less(x.path, y.path) && (x.path == y.path && y.tree.Leaf? ==> x != y))
      && (Compare(a, b) == 0 ==> x.path == y.path && (y.tree.Leaf? ==> x == y))
      && (Compare(a, b) == 0 && HashAt(a) != Zero() ==> x == y)
  {
    hide Chain, Rest, Pre, Below, Canon, Repr, Within, Avail, Enc;
    HashAtTop(a);
    HashAtTop(b);
    LessIrreflexive(b.path);
    if a.stack != [] && Compare(a, b) == 0 && HashAt(a) != Zero() {
      var s, t := a.Current().tree, b.Current().tree;
      assert Enc(a.h, s) in a.e.u && Enc(a.h, t) in a.e.u;
      Binding.NodeBinds(a.h, a.e.u, s, t);
    }
  }

  /** Where both roots can be told from the empty trie, the comparison tells all nodes apart
      that differ in path, hash or value. */
  lemma ComparedAll(a: NodeIterator, b: NodeIterator)
    requires a.Valid() && b.Valid() && a.h == b.h && Clear(a.h, a.tree) && Clear(b.h, b.tree)
    requires a.stack != [] && b.stack != [] && TermAt(a) && TermAt(b)
    ensures var x, y := a.Current(), b.Current();
      && (Compare(a, b) == 0 <==> Same(a.h, x, y))
      && (Compare(a, b) == -1 ==> Less(x.path, y.path) || x.path == y.path)
      && (Compare(a, b) == 1 ==> !Less(x.path, y.path))
  {
    hide Chain, Rest, Pre, Below, Canon, Repr, Within, Avail, Enc, Cached, Clear, Shown, HashAt, BlobAt;
    ShownAt(a);
    ShownAt(b);
    HashAtTop(a);
    HashAtTop(b);
    LessIrreflexive(b.path);
  }

  class DifferenceIterator {
    const a: NodeIterator
    const b: NodeIterator
    var eof: bool
    var count: nat
    ghost const have: seq<Item>     // everything the first iterator was going to visit
    ghost const start: nat          // how many nodes the iterators had visited before

    ghost predicate Env()
      reads this, a, b
    {
      && a != b && a.Valid() && b.Valid() && !a.err.SeekFailed? && !b.err.SeekFailed?
      && a.h == b.h && a.e.u == b.e.u && Scanned()
      && Sane(Left()) && Among(Left(), have)
      && (a.err.MissingAt? ==> !a.e.full)
      && (!eof && a.err.MissingAt? ==> a.stack == [] && a.Todo() == have && a.RootMissing())
      && (!eof && a.err.End? ==> a.stack == [] && have == []) && (!eof && a.err.Fine? ==> a.stack != [] && Untouched(a))
      && Sane(b.Todo())
    }

    /** The count is that of the nodes visited in either trie. */
    ghost predicate Scanned() reads this, a, b { count + start == a.moves + b.moves }

    /** What is left of the first trie: nothing at its end, everything while its root cannot
        be loaded. */
    ghost function Left(): seq<Item>
      requires |a.stack| == |a.trees|
      reads this, a
    {
      if eof then [] else if a.err.MissingAt? then have else Ahead(a)
    }

    /** The first iterator gave up because a node of its trie is missing. */
    predicate LeftFailed() reads this, a { eof && a.err.MissingAt? }

    /** The first iterator has failed: at its root, or on the way. */
    predicate Failed() reads this, a { a.err.MissingAt? }

    /** There is a first trie, and the comparison recognises both roots. */
    ghost predicate Sharp() { have != [] && Clear(a.h, a.tree) && Clear(b.h, b.tree) }

    /** Unless the first iterator gave up, it has not run ahead of the second. */
    ghost predicate Valid()
      reads this, a, b
    {
      && Env() && (LeftFailed() || NotPassed(b.Todo(), have, Left()))
      && (Failed() || !Sharp() || NoneBehind(a.h, b.Todo(), have, Left()))
    }

    /** Nothing between `before` and `right` was new, and nothing needed for `right` is behind. */
    ghost predicate Exact(before: seq<Item>, right: seq<Item>, left: seq<Item>) {
      Sharp() ==> NoneBehind(a.h, right, have, left) && News(a.h, before, have) == News(a.h, right, have)
    }

    /** The second iterator stands at a node that has not been compared yet. */
    ghost predicate AtNode(before: seq<Item>)
      reads this, a, b
    {
      && Env() && !eof && b.stack != [] && b.err.Fine? && Untouched(b) && Sane(Ahead(b)) && |Ahead(b)| <= |before|
      && NotPassed(Ahead(b), have, Left()) && Keep(before, have) == Keep(Ahead(b), have)
      && (Failed() || Exact(before, Ahead(b), Left()))
    }

    constructor (a: NodeIterator, b: NodeIterator)
      requires a != b && a.Valid() && b.Valid() && !a.err.SeekFailed? && !b.err.SeekFailed?
      requires a.h == b.h && a.e.u == b.e.u
      requires a.err.Fine? || (a.err.End? && a.stack == [])
      requires a.e.full || a.stack == []      // a missing node is found before the first step
      requires Sane(a.Todo()) && Sane(b.Todo())
      modifies a
      ensures Valid() && this.a == a && this.b == b && have == old(a.Todo()) && !eof && count == 0
    {
      hide Chain, Rest, Pre, Below, Canon, Repr, Within, Avail, Enc, Sane, Hex.Nibbles, AtLeast, Cached, HashSound,
        HashShown, Universe, Addressed, NotPassed, NoneBehind, Clear, Among;
      have := a.Todo();
      var ok := Step(a, true);
      this.a, this.b, eof, count := a, b, false, 0;
      start := a.moves + b.moves;
      new;
      AllAhead(a.h, b.Todo(), have);
      assert Left() == have;
    }

    /** The second iterator stands at a node to report, the first new one. A leaf there is one
        that the first trie does not have. */
    ghost predicate AtResult(before: seq<Item>)
      reads this, a, b
    {
      && Valid() && b.stack != [] && b.err.Fine? && TermAt(b) && |b.Todo()| < |before|
      && (LeftFailed() ||
          Keep(before, have) == (if b.Current().tree.Leaf? then [b.Current()] else []) + Keep(b.Todo(), have))
      && (Failed() || !Sharp() || News(a.h, before, have) == [b.Current()] + News(a.h, b.Todo(), have))
    }

    lemma ExactEnd(before: seq<Item>)
      ensures forall left :: Exact(before, [], left) && Sharp() ==> News(a.h, before, have) == []
    {
      NewsNone(a.h, have);
    }

    lemma Terms(before: seq<Item>)
      requires AtNode(before)
      ensures TermAt(b) && (a.stack != [] ==> TermAt(a))
    {
      hide Chain, Rest, Pre, Below, Canon, Repr, Within, Avail, Enc, Keep;
      SaneTail(b.Current(), b.Todo());
      if a.stack != [] { SaneTail(a.Current(), a.Todo()); }
    }

    /** The first iterator's node comes earlier, or differs at the same path: it can move on. */
    lemma MayAdvanceLeft(before: seq<Item>)
      requires AtNode(before) && Compare(a, b) == -1
      ensures NotPassed(Ahead(b), have, a.Todo()) && Sane(a.Todo()) && Among(a.Todo(), have)
      ensures |a.Todo()| < |Left()| || a.stack == []
      ensures |a.Todo()| <= |Left()|
    {
      hide Chain, Rest, Pre, Below, Canon, Repr, Within, Avail, Enc, Keep, Compare, Exact;
      Terms(before);
      Compared(a, b);
      if a.stack != [] {
        SaneTail(a.Current(), a.Todo());
        DropLeft(b.Current(), b.Todo(), have, a.Current(), a.Todo());
      }
    }

    lemma StaysExact(before: seq<Item>)
      requires AtNode(before) && Compare(a, b) == -1
      ensures Failed() || Exact(before, Ahead(b), a.Todo())
    {
      hide Chain, Rest, Pre, Below, Canon, Repr, Within, Avail, Enc, Keep, Compare, Clear;
      if !Failed() && Sharp() {
        Terms(before);
        ComparedAll(a, b);
        PassLeft(a.h, b.Current(), b.Todo(), have, a.Current(), a.Todo());
      }
    }

    /** The second iterator's node is not in the first trie. */
    lemma MayReport(before: seq<Item>)
      requires AtNode(before) && Compare(a, b) == 1
      ensures AtResult(before)
    {
      hide Chain, Rest, Pre, Below, Canon, Repr, Within, Avail, Enc, Keep, Compare;
      Terms(before);
      Compared(a, b);
      if a.stack != [] { Unmatched(b.Current(), b.Todo(), have, a.Current(), a.Todo()); }
      Emit(b.Current(), b.Todo(), have);
      SaneTail(b.Current(), b.Todo());
      ReportsNew(before);
    }

    lemma ReportsNew(before: seq<Item>)
      requires AtNode(before) && Compare(a, b) == 1
      ensures Failed() || !Sharp() ||
        (NoneBehind(a.h, b.Todo(), have, Left()) &&
         News(a.h, before, have) == [b.Current()] + News(a.h, b.Todo(), have))
    {
      hide Chain, Rest, Pre, Below, Canon, Repr, Within, Avail, Enc, Keep, Compare, Clear;
      if !Failed() && Sharp() {
        Terms(before);
        ComparedAll(a, b);
        NotMatched(a.h, b.Current(), b.Todo(), have, a.Current(), a.Todo());
        NewsCons(a.h, b.Current(), b.Todo(), have);
        PassRight(a.h, b.Current(), b.Todo(), have, Left());
      }
    }

    /** At the end of the first trie every node of the second is new. */
    lemma NothingLeft(before: seq<Item>)
      requires Env() && eof && b.stack != [] && b.err.Fine? && Sane(Ahead(b)) && |Ahead(b)| <= |before|
      requires a.err.MissingAt? || (NotPassed(Ahead(b), have, []) && Keep(before, have) == Keep(Ahead(b), have))
      requires Failed() || Exact(before, Ahead(b), [])
      ensures AtResult(before)
    {
      hide Chain, Rest, Pre, Below, Canon, Repr, Within, Avail, Enc, Keep, Sane, Clear, News, NoneBehind, Matched;
      var y := b.Current();
      SaneTail(y, b.Todo());
      assert y in Ahead(b);
      forall x | x in b.Todo() ensures x in Ahead(b) {}
      if !a.err.MissingAt? { Emit(y, b.Todo(), have); }
      if !Failed() && Sharp() {
        AllNew(a.h, y, b.Todo(), have);
        NewsCons(a.h, y, b.Todo(), have);
      }
    }

    method AdvanceLeft(ghost before: seq<Item>) returns (more: bool)
      requires AtNode(before) && Compare(a, b) == -1
      modifies this, a
      ensures more ==> AtNode(before)
      ensures more ==> |Left()| < |old(Left())| || (old(a.stack) == [] && a.stack != [] && |Left()| <= |old(Left())|)
      ensures !more ==> AtResult(before)
      ensures (old(Failed()) ==> Failed()) && Scanned()
    {
      hide Chain, Rest, Pre, Below, Canon, Repr, Within, Avail, Enc, Keep, Compare, Sane, NotPassed, Among, Ahead,
        Untouched, Exact;
      MayAdvanceLeft(before);
      StaysExact(before);
      more := Step(a, true);
      if more {
        count := count + 1;
      } else {
        eof := true;
        SaneEmpty(have);
        NothingLeft(before);
      }
    }

    /** Equal nodes, at equal hashes with everything below them, can be left behind by both. */
    lemma MayAdvanceBoth(before: seq<Item>)
      requires AtNode(before) && Compare(a, b) == 0
      ensures var down := HashAt(a) == Zero();
        && NotPassed(b.Upcoming(down), have, a.Upcoming(down))
        && Keep(before, have) == Keep(b.Upcoming(down), have)
        && Sane(a.Upcoming(down)) && Sane(b.Upcoming(down)) && Among(a.Upcoming(down), have)
        && |b.Upcoming(down)| < |Ahead(b)| && |a.Upcoming(down)| <= |Left()|
    {
      hide Chain, Rest, Pre, Below, Canon, Repr, Within, Avail, Enc, Keep, Compare;
      Terms(before);
      Compared(a, b);
      var y := b.Current();
      SaneTail(y, b.Todo());
      if a.stack == [] {
        KeepSkip([y], b.Todo(), have);
      } else {
        var x := a.Current();
        SaneTail(x, a.Todo());
        assert x in Left();
        if HashAt(a) == Zero() {
          DropEqual(y, b.Todo(), have, x, a.Todo());
        } else {
          var below := Below(y.tree, y.path);
          SaneRest(below, b.TodoSkip());
          SaneRest(below, a.TodoSkip());
          DropSame(y, below, b.TodoSkip(), have, a.TodoSkip());
        }
      }
    }

    lemma BothExact(before: seq<Item>)
      requires AtNode(before) && Compare(a, b) == 0
      ensures var down := HashAt(a) == Zero();
        Failed() || Exact(before, b.Upcoming(down), a.Upcoming(down))
    {
      hide Chain, Rest, Pre, Below, Canon, Repr, Within, Avail, Enc, Keep, Compare, Clear, HashAt;
      if !Failed() && Sharp() {
        Terms(before);
        Compared(a, b);
        ComparedAll(a, b);
        var x, y := a.Current(), b.Current();
        assert x in Left();
        if HashAt(a) == Zero() {
          PassBoth(a.h, y, b.Todo(), have, x, a.Todo());
        } else {
          PassSubtree(a.h, y, Below(y.tree, y.path), b.TodoSkip(), have, a.TodoSkip());
        }
      }
    }

    /** Both move on, past everything below if there is a hash. `more`: go on comparing; `ok`:
        stop at a node to report. */
    method AdvanceBoth(ghost before: seq<Item>) returns (more: bool, ok: bool)
      requires AtNode(before) && Compare(a, b) == 0
      modifies this, a, b
      ensures more ==> ok && AtNode(before) && |Ahead(b)| + |Left()| < |old(Ahead(b))| + |old(Left())|
      ensures !more && ok ==> AtResult(before)
      ensures ok ==> Ahead(b) == old(b.Upcoming(HashAt(a) == Zero()))
      ensures more ==> Ahead(a) == old(a.Upcoming(HashAt(a) == Zero()))
      ensures !more && !ok ==> !b.err.Fine? && !b.err.SeekFailed? && (b.e.full ==> b.err.End?)
      ensures !more && !ok ==> (a.err.MissingAt? ==> !a.e.full) && (b.err.End? ==> Keep(before, have) == [])
      ensures !more && !ok && b.err.End? ==> Failed() || !Sharp() || News(a.h, before, have) == []
      ensures (old(Failed()) ==> Failed()) && Scanned()
    {
      hide Chain, Rest, Pre, Below, Canon, Repr, Within, Avail, Enc, Compare, Sane, NotPassed, Among, Ahead, Untouched,
        Keep, HashAt, Universe, Addressed, Exact;
      KeepNone(have);
      MayAdvanceBoth(before);
      BothExact(before);
      ExactEnd(before);
      var down := HashAt(a) == Zero();
      ok := Step(b, down);
      if !ok { return false, false; }
      SaneAhead(b);
      count := count + 1;
      more := Step(a, down);
      if more {
        count := count + 1;
      } else {
        eof := true;
        SaneEmpty(have);
        NothingLeft(before);
      }
    }

    /** Compares until a node to report is found. */
    method Search(ghost before: seq<Item>) returns (ok: bool)
      requires AtNode(before)
      modifies this, a, b
      ensures ok ==> AtResult(before)
      ensures !ok ==> !b.err.Fine? && !b.err.SeekFailed? && (b.e.full ==> b.err.End?)
      ensures !ok ==> (a.err.MissingAt? ==> !a.e.full) && (b.err.End? ==> Keep(before, have) == [])
      ensures !ok && b.err.End? ==> Failed() || !Sharp() || News(a.h, before, have) == []
      ensures (old(Failed()) ==> Failed()) && Scanned()
    {
      hide Chain, Rest, Pre, Below, Canon, Repr, Within, Avail, Enc, Sane, NotPassed, Among, Compare, Untouched, Ahead,
        Keep;
      ok := true;
      var more := true;
      while more
        invariant more ==> ok && AtNode(before)
        invariant !more && ok ==> AtResult(before)
        invariant !more && !ok ==> !b.err.Fine? && !b.err.SeekFailed? && (b.e.full ==> b.err.End?)
        invariant !more && !ok ==> (a.err.MissingAt? ==> !a.e.full) && (b.err.End? ==> Keep(before, have) == [])
        invariant !more && !ok && b.err.End? ==> Failed() || !Sharp() || News(a.h, before, have) == []
        invariant (old(Failed()) ==> Failed()) && Scanned()
        decreases more, if more then |Ahead(b)| + |Left()| else 0, a.stack == []
      {
        var c := Compare(a, b);
        if c == -1 {
          more := AdvanceLeft(before);
        } else if c == 1 {
          MayReport(before);
          more := false;
        } else {
          more, ok := AdvanceBoth(before);
        }
      }
    }

    /** Moves to the next node of the second trie that is unlike every node of the first one.
        Reports whether there is one. */
    method Next() returns (ok: bool)
      requires Valid()
      modifies this, a, b
      ensures ok ==> AtResult(old(b.Todo()))
      ensures old(LeftFailed()) ==> LeftFailed()
      ensures (old(Failed()) ==> Failed()) && Scanned()
      ensures !ok ==> !b.err.Fine? && !b.err.SeekFailed? && (b.e.full ==> b.err.End?)
      ensures !ok ==> a.err.MissingAt? ==> !a.e.full
      ensures !ok && b.err.End? && !LeftFailed() ==> Keep(old(b.Todo()), have) == []
      ensures !ok && b.err.End? && !Failed() && Sharp() ==> News(a.h, old(b.Todo()), have) == []
    {
      hide Chain, Rest, Pre, Below, Canon, Repr, Within, Avail, Enc, Sane, NotPassed, Among, Compare, Untouched;
      ghost var before := b.Todo();
      ok := Step(b, true);
      if !ok { return; }
      SaneAhead(b);
      count := count + 1;
      if eof {
        NothingLeft(before);
        return;
      }
      ok := Search(before);
    }
  }

  lemma PreSane(t: Tree)
    requires Canon(t)
    ensures Sane(Pre(t, []))
  {
    PreSorted(t, []);
    forall x | x in Pre(t, []) ensures HasTerm(x.path) <==> x.tree.Leaf? { LeafByPath(t, [], x); }
  }

  /** Iterates over a whole trie. */
  method Whole(trie: Trie) returns (it: NodeIterator)
    requires trie.Valid()
    modifies trie`root, trie`db
    ensures trie.Valid() && (old(trie.Complete()) ==> trie.Complete()) && trie.tree == old(trie.tree)
    ensures fresh(it) && it.Valid() && (it.e.full <==> trie.Complete()) && (it.err.SeekFailed? ==> !it.e.full)
    ensures it.h == trie.h && it.e.u == trie.u && it.stack == [] && !it.err.MissingAt?
    ensures !it.err.SeekFailed? ==> it.Todo() == Pre(trie.tree, []) && Sane(it.Todo())
  {
    hide Pre, Canon, Repr, Within, Avail, Enc, Rest, Chain, Below, AtLeast;
    it := NewNodeIterator(trie, []);
    NibblesEmpty();
    AtLeastAny(Pre(trie.tree, []));
    PreSane(trie.tree);
  }

  lemma AtLeastAny(s: seq<Item>)
    ensures AtLeast(s, []) == s
  {}

  lemma LeafPairsAppend(x: Item, s: seq<Item>)
    ensures LeafPairs((if x.tree.Leaf? then [x] else []) + s) ==
      (if x.tree.Leaf? then [(x.path, x.tree.value)] else []) + LeafPairs(s)
  {
    if x.tree.Leaf? {
      LeafPairsCons(x, s);
    } else {
      assert [] + s == s;
    }
  }

  /** Moves on and returns the leaf reported, if it is one. */
  method NextLeaf(it: DifferenceIterator) returns (ok: bool, leaf: seq<(Key, Blob)>, ghost node: Item)
    requires it.Valid()
    modifies it, it.a, it.b
    ensures ok ==> it.Valid() && |it.b.Todo()| < |old(it.b.Todo())|
    ensures old(it.LeftFailed()) ==> it.LeftFailed()
    ensures old(it.Failed()) ==> it.Failed()
    ensures ok ==> it.b.stack != [] && node == it.b.Current()
    ensures ok && !it.Failed() && it.Sharp() ==>
      News(it.a.h, old(it.b.Todo()), it.have) == [node] + News(it.a.h, it.b.Todo(), it.have)
    ensures !ok && it.b.err.End? && !it.Failed() && it.Sharp() ==> News(it.a.h, old(it.b.Todo()), it.have) == []
    ensures ok && !it.LeftFailed() ==>
      LeafPairs(Keep(old(it.b.Todo()), it.have)) == leaf + LeafPairs(Keep(it.b.Todo(), it.have))
    ensures !ok ==> !it.b.err.Fine? && !it.b.err.SeekFailed? && (it.b.e.full ==> it.b.err.End?)
    ensures !ok ==> it.a.err.MissingAt? ==> !it.a.e.full
    ensures !ok && it.b.err.End? && !it.LeftFailed() ==> Keep(old(it.b.Todo()), it.have) == []
  {
    hide Pre, Canon, Repr, Within, Avail, Enc, AtLeast, Nibbles, Rest, Chain, Below, LeafPairs, Universe, Addressed,
      Keep, Sane, NotPassed, Among, Untouched, Ahead, News, NoneBehind, Clear;
    ok := it.Next();
    leaf, node := [], Item([], Empty);
    if ok {
      node := it.b.Current();
      LeafPairsAppend(it.b.Current(), Keep(it.b.Todo(), it.have));
      HashAtTop(it.b);
      if HasTerm(it.b.path) { leaf := [(it.b.path, BlobAt(it.b))]; }
    }
  }

  /** Every leaf that is still reported, and every node. */
  method Drain(it: DifferenceIterator) returns (out: seq<(Key, Blob)>, ghost nodes: seq<Item>)
    requires it.Valid()
    modifies it, it.a, it.b
    ensures !it.b.err.Fine? && !it.b.err.SeekFailed? && (it.b.e.full ==> it.b.err.End?)
    ensures it.a.err.MissingAt? ==> !it.a.e.full
    ensures it.b.err.End? && !it.LeftFailed() ==> out == LeafPairs(Keep(old(it.b.Todo()), it.have))
    ensures it.b.err.End? && !it.Failed() && it.Sharp() ==> nodes == News(it.a.h, old(it.b.Todo()), it.have)
  {
    hide Pre, Canon, Repr, Within, Avail, Enc, AtLeast, Nibbles, Rest, Chain, Below, LeafPairs, Universe, Addressed,
      Keep, Sane, News, Clear, Cached, NoneBehind, NotPassed;
    ghost var all := LeafPairs(Keep(it.b.Todo(), it.have));
    ghost var news := News(it.a.h, it.b.Todo(), it.have);
    out, nodes := [], [];
    LeafPairsNone();
    assert [] + news == news;
    while true
      invariant it.Valid()
      invariant it.LeftFailed() || out + LeafPairs(Keep(it.b.Todo(), it.have)) == all
      invariant it.Failed() || !it.Sharp() || nodes + News(it.a.h, it.b.Todo(), it.have) == news
      decreases |it.b.Todo()|
    {
      var ok, leaf;
      ghost var node;
      ok, leaf, node := NextLeaf(it);
      if !ok {
        assert out + [] == out && nodes + [] == nodes;
        return;
      }
      Assoc(out, leaf, LeafPairs(Keep(it.b.Todo(), it.have)));
      Assoc(nodes, [node], News(it.a.h, it.b.Todo(), it.have));
      out, nodes := out + leaf, nodes + [node];
    }
  }

  /** Everything the difference iterator reports over two whole tries. `done` is false if an
      iterator ended with an error. */
  method CollectDifference(ta: Trie, tb: Trie)
    returns (out: seq<(Key, Blob)>, ghost nodes: seq<Item>, done: bool)
    requires ta != tb && ta.Valid() && tb.Valid() && ta.h == tb.h && ta.u == tb.u
    modifies ta`root, ta`db, tb`root, tb`db
    ensures ta.tree == old(ta.tree) && tb.tree == old(tb.tree)
    ensures old(ta.Complete()) && old(tb.Complete()) ==> done
    ensures done ==> out == LeafPairs(Keep(Pre(tb.tree, []), Pre(ta.tree, [])))
    ensures done && Clear(ta.h, ta.tree) && Clear(tb.h, tb.tree) ==>
      nodes == News(ta.h, Pre(tb.tree, []), Pre(ta.tree, []))
    ensures done && Clear(ta.h, ta.tree) && ta.tree == tb.tree ==> nodes == []
  {
    hide Canon, Repr, Within, Avail, Enc, AtLeast, Nibbles, Rest, Chain, Below, LeafPairs, Universe, Addressed, Keep,
      Sane, News, Clear, Cached, NoneBehind, NotPassed;
    var a := Whole(ta);
    var b := Whole(tb);
    if a.err.SeekFailed? || b.err.SeekFailed? { return [], [], false; }
    NewsSelf(a.h, a.Todo());
    var it := new DifferenceIterator(a, b);
    out, nodes := Drain(it);
    done := !a.err.MissingAt? && !b.err.MissingAt?;
  }

  /** Nothing is new against itself. */
  lemma NewsSelf(h: Hasher, s: seq<Item>)
    ensures News(h, s, s) == []
  {
    forall x | x in s ensures Matched(h, x, s) { assert Same(h, x, x); }
    NewsSkip(h, s, [], s);
    assert s + [] == s;
  }

  lemma {:induction false} NewsMember(h: Hasher, s: seq<Item>, a: seq<Item>, x: Item)
    ensures x in News(h, s, a) <==> x in s && !Matched(h, x, a)
  {
    if s != [] {
      assert s == [s[0]] + s[1..];
      NewsMember(h, s[1..], a, x);
    }
  }

  lemma {:induction false} NewsSorted(h: Hasher, s: seq<Item>, a: seq<Item>)
    requires Sorted(s)
    ensures Sorted(News(h, s, a))
  {
    hide Less, Matched;
    if s != [] {
      assert s == [s[0]] + s[1..];
      SortedHead(s[0], s[1..]);
      NewsSorted(h, s[1..], a);
      var r := News(h, s[1..], a);
      forall x | x in r ensures Less(s[0].path, x.path) { NewsMember(h, s[1..], a, x); }
      SortedCons(s[0], r);
      assert [] + r == r;
    }
  }

  lemma {:induction false} PreWithin(h: Hasher, u: iset<Blob>, t: Tree, path: Key, x: Item)
    requires Canon(t) && Within(h, u, t) && x in Pre(t, path)
    ensures Within(h, u, x.tree) && (Inner(x.tree) ==> Canon(x.tree))
    decreases t
  {
    hide Enc;
    if x != Item(path, t) {
      if t.Ext? {
        if t.sub.Leaf? { PreLeaf(t.sub, path + t.key); } else { PreWithin(h, u, t.sub, path + t.key, x); }
      } else {
        var i := KidOf(t.kids, 0, path, x);
        if i == 16 { PreLeaf(t.kids[16], path + [16]); } else { PreWithin(h, u, t.kids[i], path + [i], x); }
      }
    }
  }

  /** A node with a hash, or a leaf, is matched only by itself. */
  lemma MatchedIsIn(h: Hasher, u: iset<Blob>, ta: Tree, tb: Tree, y: Item)
    requires Universe(h, u) && Canon(ta) && Canon(tb) && Within(h, u, ta) && Within(h, u, tb)
    requires y in Pre(tb, []) && (y.tree.Leaf? || Shown(h, y) != Zero())
    ensures Matched(h, y, Pre(ta, [])) <==> y in Pre(ta, [])
  {
    hide Enc, Canon, Pre, Within;
    LeafByPath(tb, [], y);
    PreWithin(h, u, tb, [], y);
    if y in Pre(ta, []) { assert Same(h, y, y); }
    if Matched(h, y, Pre(ta, [])) {
      var z :| z in Pre(ta, []) && Same(h, z, y);
      PreWithin(h, u, ta, [], z);
      if !y.tree.Leaf? {
        InnerWithin(h, u, z.tree);
        InnerWithin(h, u, y.tree);
        Binding.NodeBinds(h, u, z.tree, y.tree);
      }
    }
  }

  lemma InnerWithin(h: Hasher, u: iset<Blob>, t: Tree)
    requires Inner(t) && Within(h, u, t)
    ensures Enc(h, t) in u
  {}

  /** The nodes reported, each once and in order: the leaves and the nodes with a hash that the
      first trie does not have, and the nodes without a hash at whose path it has none without. */
  lemma ReportedExact(h: Hasher, u: iset<Blob>, ta: Tree, tb: Tree, y: Item)
    requires Universe(h, u) && Canon(ta) && Canon(tb) && Within(h, u, ta) && Within(h, u, tb)
    ensures var nodes := News(h, Pre(tb, []), Pre(ta, []));
      && (y in nodes <==>
          && y in Pre(tb, [])
          && (if y.tree.Leaf? || Shown(h, y) != Zero() then y !in Pre(ta, [])
              else forall z :: z in Pre(ta, []) && z.path == y.path ==> Shown(h, z) != Zero()))
      && Sorted(nodes)
  {
    hide Enc, Canon, Pre, Within, Shown;
    NewsMember(h, Pre(tb, []), Pre(ta, []), y);
    PreSorted(tb, []);
    NewsSorted(h, Pre(tb, []), Pre(ta, []));
    if y in Pre(tb, []) {
      LeafByPath(tb, [], y);
      if y.tree.Leaf? || Shown(h, y) != Zero() { MatchedIsIn(h, u, ta, tb, y); }
    }
  }

  lemma {:induction false} KeepMember(s: seq<Item>, a: seq<Item>, x: Item)
    ensures x in Keep(s, a) <==> x in s && x.tree.Leaf? && x !in a
  {
    if s != [] {
      assert s == [s[0]] + s[1..];
      KeepMember(s[1..], a, x);
    }
  }

  lemma SortedCons(x: Item, r: seq<Item>)
    requires Sorted(r) && forall y :: y in r ==> Less(x.path, y.path)
    ensures Sorted([x] + r)
  {
    forall i, j | 0 <= i < j < |[x] + r| ensures Less(([x] + r)[i].path, ([x] + r)[j].path) {
      assert ([x] + r)[j] == r[j - 1];
      if i == 0 { assert r[j - 1] in r; } else { assert ([x] + r)[i] == r[i - 1]; }
    }
  }

  lemma {:induction false} KeepSorted(s: seq<Item>, a: seq<Item>)
    requires Sorted(s)
    ensures Sorted(Keep(s, a))
  {
    hide Less;
    if s != [] {
      assert s == [s[0]] + s[1..];
      SortedHead(s[0], s[1..]);
      KeepSorted(s[1..], a);
      var r := Keep(s[1..], a);
      forall x | x in r ensures Less(s[0].path, x.path) { KeepMember(s[1..], a, x); }
      SortedCons(s[0], r);
      assert [] + r == r;
    }
  }

  /** The leaves reported: exactly the pairs of the second trie that the first does not hold
      with the same value, once each, in strictly increasing order. */
  lemma DifferenceExact(ta: Tree, tb: Tree, p: Key, v: Blob)
    requires Canon(ta) && Canon(tb)
    ensures var out := LeafPairs(Keep(Pre(tb, []), Pre(ta, [])));
      && ((p, v) in out <==> Terminated(p) && Lookup(tb, p) == Some(v) && Lookup(ta, p) != Some(v))
      && (forall i, j :: 0 <= i < j < |out| ==> Less(out[i].0, out[j].0))
  {
    hide Pre, Canon, Lookup, LeafPairs, Keep, Less, Terminated;
    var s := Keep(Pre(tb, []), Pre(ta, []));
    LeafPairsMember(s, p, v);
    KeepMember(Pre(tb, []), Pre(ta, []), Item(p, Leaf(v)));
    LeavesAreContents(ta, p, v);
    LeavesAreContents(tb, p, v);
    PreSorted(tb, []);
    KeepSorted(Pre(tb, []), Pre(ta, []));
    LeafPairsSorted(s);
  }
}
