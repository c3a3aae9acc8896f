/** The nodes of a tree in iteration order, with their paths. */
module Preorder {
  import opened Bytes
  import opened Hex
  import opened Tree
  import opened TreeInsert
  import opened TreeDelete

  datatype Item = Item(path: Key, tree: Tree)

  /** A node, then everything below it from the lowest child to the highest. */
  function Pre(t: Tree, path: Key): (s: seq<Item>)
    ensures |s| > 0 && s[0] == Item(path, t)
    decreases t, 1
  {
    [Item(path, t)] + Below(t, path)
  }

  function Below(t: Tree, path: Key): seq<Item>
    decreases t, 0
  {
    match t
    case Ext(k, s) => Pre(s, path + k)
    case Branch(kids) => if |kids| == 17 then KidsFrom(kids, 0, path) else []
    case _ => []
  }

  /** Everything below children `i` and up; empty slots contribute nothing. */
  function KidsFrom(kids: seq<Tree>, i: nat, path: Key): seq<Item>
    requires |kids| == 17
    decreases kids, 17 - i
  {
    if i >= 17 then []
    else if kids[i].Empty? then KidsFrom(kids, i + 1, path)
    else Pre(kids[i], path + [i]) + KidsFrom(kids, i + 1, path)
  }

  // --- lexicographic order on paths: a prefix comes first ---

  predicate Less(a: Key, b: Key) {
    b != [] && (a == [] || a[0] < b[0] || (a[0] == b[0] && Less(a[1..], b[1..])))
  }

  lemma {:induction false} LessTrans(a: Key, b: Key, c: Key)
    requires Less(a, b) && Less(b, c)
    ensures Less(a, c)
  {
    if a != [] && a[0] == b[0] == c[0] { LessTrans(a[1..], b[1..], c[1..]); }
  }

  lemma {:induction false} LessIrreflexive(a: Key)
    ensures !Less(a, a)
  {
    if a != [] { LessIrreflexive(a[1..]); }
  }

  /** Only one of the three cases. */
  lemma LessAsym(a: Key, b: Key)
    requires Less(a, b)
    ensures a != b && !Less(b, a)
  {
    if a == b { LessIrreflexive(a); }
    if Less(b, a) { LessTrans(a, b, a); LessIrreflexive(a); }
  }

  lemma {:induction false} LessPrefix(p: Key, a: Key, b: Key)
    ensures Less(p + a, p + b) <==> Less(a, b)
  {
    if p == [] {
      assert p + a == a && p + b == b;
    } else {
      assert (p + a)[1..] == p[1..] + a && (p + b)[1..] == p[1..] + b;
      LessPrefix(p[1..], a, b);
    }
  }

  lemma PrefixLess(p: Key, a: Key)
    requires a != []
    ensures Less(p, p + a)
  {
    assert p + [] == p;
    LessPrefix(p, [], a);
  }

  /** Paths below different children are ordered like the children. */
  lemma LessFork(p: Key, i: Nibble, a: Key, j: Nibble, b: Key)
    requires i < j
    ensures Less(p + [i] + a, p + [j] + b)
  {
    Assoc(p, [i], a);
    Assoc(p, [j], b);
    LessPrefix(p, [i] + a, [j] + b);
  }

  /** A path below `key` that is not a prefix of it keeps everything under it below `key`. */
  lemma {:induction false} LessUnder(p: Key, a: Key, key: Key)
    requires Less(p, key) && !(p <= key)
    ensures Less(p + a, key)
  {
    if p[0] == key[0] {
      assert (p + a)[1..] == p[1..] + a;
      assert p == [p[0]] + p[1..] && key == [key[0]] + key[1..];
      LessUnder(p[1..], a, key[1..]);
    }
  }

  // --- sortedness ---

  ghost predicate Sorted(s: seq<Item>) {
    forall i, j :: 0 <= i < j < |s| ==> Less(s[i].path, s[j].path)
  }

  ghost predicate Under(s: seq<Item>, p: Key) {
    forall i :: 0 <= i < |s| ==> p <= s[i].path
  }

  lemma {:induction false} PreUnder(t: Tree, path: Key)
    ensures Under(Pre(t, path), path) && Under(Below(t, path), path)
    decreases t, 1
  {
    match t
    case Ext(k, s) =>
      PreUnder(s, path + k);
      UnderWeaken(Pre(s, path + k), path, path + k);
    case Branch(kids) =>
      if |kids| == 17 { KidsUnder(kids, 0, path); }
    case _ =>
  }

  lemma UnderWeaken(s: seq<Item>, p: Key, q: Key)
    requires Under(s, q) && p <= q
    ensures Under(s, p)
  {
    forall i | 0 <= i < |s| ensures p <= s[i].path { assert q <= s[i].path; }
  }

  lemma {:induction false} KidsUnder(kids: seq<Tree>, i: nat, path: Key)
    requires |kids| == 17
    ensures Under(KidsFrom(kids, i, path), path)
    decreases kids, 17 - i
  {
    if i < 17 {
      KidsUnder(kids, i + 1, path);
      if !kids[i].Empty? {
        PreUnder(kids[i], path + [i]);
        UnderWeaken(Pre(kids[i], path + [i]), path, path + [i]);
      }
    }
  }

  /** Everything from child `i` on continues the path with `i` or more. */
  ghost predicate From(s: seq<Item>, p: Key, i: nat) {
    forall j :: 0 <= j < |s| ==> |p| < |s[j].path| && p <= s[j].path && s[j].path[|p|] >= i
  }

  lemma {:induction false} KidsAbove(kids: seq<Tree>, i: nat, path: Key)
    requires |kids| == 17
    ensures From(KidsFrom(kids, i, path), path, i)
    decreases kids, 17 - i
  {
    if i < 17 {
      KidsAbove(kids, i + 1, path);
      if !kids[i].Empty? {
        var s := Pre(kids[i], path + [i]);
        PreUnder(kids[i], path + [i]);
        forall j | 0 <= j < |s| ensures |path| < |s[j].path| && path <= s[j].path && s[j].path[|path|] >= i {
          assert path + [i] <= s[j].path;
          assert s[j].path[|path|] == (path + [i])[|path|];
        }
      }
    }
  }

  lemma SortedAppend(a: seq<Item>, b: seq<Item>)
    requires Sorted(a) && Sorted(b)
    requires forall i, j :: 0 <= i < |a| && 0 <= j < |b| ==> Less(a[i].path, b[j].path)
    ensures Sorted(a + b)
  {}

  /** Iteration order is strictly increasing path order: no node is visited twice. */
  lemma {:induction false} PreSorted(t: Tree, path: Key)
    requires Canon(t) || LeafOk(t)
    ensures Sorted(Pre(t, path)) && Sorted(Below(t, path))
    decreases t, 1
  {
    match t
    case Ext(k, s) =>
      PreSorted(s, path + k);
      PreUnder(s, path + k);
      HeadFirst(t, path, k);
    case Branch(kids) =>
      KidsSorted(kids, 0, path);
      KidsAbove(kids, 0, path);
      var below := Below(t, path);
      forall j | 0 <= j < |below| ensures Less(path, below[j].path) {
        assert below[j].path == path + below[j].path[|path|..];
        PrefixLess(path, below[j].path[|path|..]);
      }
      SortedAppend([Item(path, t)], below);
    case _ =>
  }

  lemma HeadFirst(t: Tree, path: Key, k: Key)
    requires k != [] && Sorted(Below(t, path)) && Under(Below(t, path), path + k)
    ensures Sorted(Pre(t, path))
  {
    var below := Below(t, path);
    forall j | 0 <= j < |below| ensures Less(path, below[j].path) {
      var q := below[j].path[|path|..];
      assert path + k <= below[j].path;
      assert below[j].path == path + q && q != [];
      PrefixLess(path, q);
    }
    SortedAppend([Item(path, t)], below);
  }

  lemma {:induction false} KidsSorted(kids: seq<Tree>, i: nat, path: Key)
    requires KidsOk(kids)
    ensures Sorted(KidsFrom(kids, i, path))
    decreases kids, 17 - i
  {
    if i < 17 {
      KidsSorted(kids, i + 1, path);
      if !kids[i].Empty? {
        PreSorted(kids[i], path + [i]);
        PreUnder(kids[i], path + [i]);
        KidsAbove(kids, i + 1, path);
        var a, b := Pre(kids[i], path + [i]), KidsFrom(kids, i + 1, path);
        forall x, y | 0 <= x < |a| && 0 <= y < |b| ensures Less(a[x].path, b[y].path) {
          ForkPaths(path, i, a[x].path, b[y].path);
        }
        SortedAppend(a, b);
      }
    }
  }

  lemma ForkPaths(path: Key, i: Nibble, a: Key, b: Key)
    requires path + [i] <= a && path <= b && |path| < |b| && b[|path|] > i
    ensures Less(a, b)
  {
    var n := |path|;
    assert a == path + [i] + a[n + 1..];
    assert b == path + [b[n]] + b[n + 1..];
    LessFork(path, i, a[n + 1..], b[n], b[n + 1..]);
  }

  // --- the leaves are the contents ---

  /** The tree reached by following `q` from `t`, if a node sits exactly there. */
  lemma {:induction false} LeafItem(t: Tree, path: Key, q: Key, v: Blob)
    requires CanonAt(t, q) && Suffix(q) && Lookup(t, q) == Some(v)
    ensures Item(path + q, Leaf(v)) in Pre(t, path)
    decreases t
  {
    match t
    case Leaf(_) =>
      assert path + q == path;
    case Ext(k, s) =>
      KeyRest(q, k);
      LeafItem(s, path + k, q[|k|..], v);
      assert q == k + q[|k|..];
      Assoc(path, k, q[|k|..]);
    case Branch(kids) =>
      LastNibble(q);
      LeafItem(kids[q[0]], path + [q[0]], q[1..], v);
      assert q == [q[0]] + q[1..];
      Assoc(path, [q[0]], q[1..]);
      KidItem(kids, 0, q[0], path, Item(path + q, Leaf(v)));
  }

  lemma {:induction false} KidItem(kids: seq<Tree>, i: nat, j: Nibble, path: Key, x: Item)
    requires |kids| == 17 && i <= j && !kids[j].Empty? && x in Pre(kids[j], path + [j])
    ensures x in KidsFrom(kids, i, path)
    decreases j - i
  {
    if i < j { KidItem(kids, i + 1, j, path, x); }
  }

  lemma {:induction false} ItemLeaf(t: Tree, path: Key, x: Item)
    requires (Canon(t) || LeafOk(t)) && x in Pre(t, path) && x.tree.Leaf?
    ensures path <= x.path
    ensures var q := x.path[|path|..]; Suffix(q) && CanonAt(t, q) && Lookup(t, q) == Some(x.tree.value)
    decreases t
  {
    hide Lookup;
    if t.Leaf? {
      assert x == Item(path, t);
      LeafSelf(t);
    } else if t.Ext? {
      assert x in Pre(t.sub, path + t.key);
      ItemLeaf(t.sub, path + t.key, x);
      LeafInSub(t, path, x);
    } else if t.Branch? {
      var i := KidOf(t.kids, 0, path, x);
      ItemLeaf(t.kids[i], path + [i], x);
      LeafInKid(t, path, x, i);
    }
  }

  lemma LeafSelf(t: Tree)
    requires t.Leaf?
    ensures Lookup(t, []) == Some(t.value)
  {}

  /** A leaf below an extension is where the extension's key leads. */
  lemma LeafInSub(t: Tree, path: Key, x: Item)
    requires Canon(t) && t.Ext? && x.tree.Leaf? && path + t.key <= x.path
    requires var r := x.path[|path + t.key|..]; Suffix(r) && CanonAt(t.sub, r) && Lookup(t.sub, r) == Some(x.tree.value)
    ensures path <= x.path
    ensures var q := x.path[|path|..]; Suffix(q) && CanonAt(t, q) && Lookup(t, q) == Some(x.tree.value)
  {
    var r := x.path[|path + t.key|..];
    var q := x.path[|path|..];
    assert q == t.key + r;
    if t.sub.Leaf? { assert r == [] && q == t.key; } else { PlainJoin(t.key, r); }
    SubLookup(t, r);
  }

  lemma LeafInKid(t: Tree, path: Key, x: Item, i: Nibble)
    requires Canon(t) && t.Branch? && x.tree.Leaf? && path + [i] <= x.path && !t.kids[i].Empty?
    requires var r := x.path[|path + [i]|..];
      Suffix(r) && CanonAt(t.kids[i], r) && Lookup(t.kids[i], r) == Some(x.tree.value)
    ensures path <= x.path
    ensures var q := x.path[|path|..]; Suffix(q) && CanonAt(t, q) && Lookup(t, q) == Some(x.tree.value)
  {
    var r := x.path[|path + [i]|..];
    assert x.path[|path|..] == [i] + r;
    if i < 16 { PlainJoin([i], r); } else { assert [i] + r == [16]; }
    KidLookup(t, i, r);
  }

  /** The child an item lies under. */
  lemma {:induction false} KidOf(kids: seq<Tree>, i: nat, path: Key, x: Item) returns (j: Nibble)
    requires KidsOk(kids) && x in KidsFrom(kids, i, path)
    ensures i <= j < 17 && !kids[j].Empty? && x in Pre(kids[j], path + [j])
    decreases 17 - i
  {
    if !kids[i].Empty? && x in Pre(kids[i], path + [i]) {
      j := i;
    } else {
      j := KidOf(kids, i + 1, path, x);
    }
  }

  /** The leaves visited are exactly the stored pairs. */
  lemma LeavesAreContents(t: Tree, path: Key, v: Blob)
    requires Canon(t)
    ensures Item(path, Leaf(v)) in Pre(t, []) <==> Terminated(path) && Lookup(t, path) == Some(v)
  {
    if Item(path, Leaf(v)) in Pre(t, []) {
      ItemLeaf(t, [], Item(path, Leaf(v)));
      assert path[0..] == path;
    }
    if Terminated(path) && Lookup(t, path) == Some(v) {
      LeafItem(t, [], path, v);
      assert [] + path == path;
    }
  }
}
