/** The fully loaded trie as a value: lookup, insertion and deletion of fast/trie.go on
    canonical trees, and the proof that a canonical tree is determined by its contents. */
module Tree {
  import opened Bytes
  import opened Hex

  /** `Ext` is the short node, `Branch` the full node with 17 children. */
  datatype Tree =
    | Empty
    | Leaf(value: Blob)
    | Ext(key: Key, sub: Tree)
    | Branch(kids: seq<Tree>)

  /** A canonical tree at a position where at least one nibble of the key is left:
      no short node directly under a short node, every full node has two children or more,
      and values sit exactly where the terminator is consumed. */
  predicate Canon(t: Tree) {
    match t
    case Empty => true
    case Leaf(_) => false
    case Ext(k, s) =>
      || (Terminated(k) && LeafOk(s) && s.Leaf?)
      || (k != [] && Plain(k) && s.Branch? && Canon(s))
    case Branch(kids) =>
      && |kids| == 17 && LeafOk(kids[16])
      && (forall i :: 0 <= i < 16 ==> Canon(kids[i]))
      && exists i, j :: 0 <= i < j < 17 && kids[i] != Empty && kids[j] != Empty
  }

  /** What may sit behind the terminator. */
  predicate LeafOk(t: Tree) { t.Empty? || (t.Leaf? && t.value != []) }

  /** Canonical where `key` is still to be consumed. */
  predicate CanonAt(t: Tree, key: Key) { if key == [] then LeafOk(t) else Canon(t) }

  /** A key suffix: terminated, or completely consumed. */
  predicate Suffix(key: Key) { key == [] || Terminated(key) }

  // --- lookup ---

  function Lookup(t: Tree, key: Key): Option<Blob> {
    match t
    case Empty => None
    case Leaf(v) => Some(v)
    case Ext(k, s) => if k <= key then Lookup(s, key[|k|..]) else None
    case Branch(kids) => if key == [] || |kids| != 17 then None else Lookup(kids[key[0]], key[1..])
  }

  lemma TerminatedTail(key: Key, n: nat)
    requires Terminated(key) && n < |key|
    ensures Terminated(key[n..]) && Plain(key[..n])
  {
    var tail := key[n..];
    assert tail[..|tail| - 1] == key[n..|key| - 1];
    assert forall i :: n <= i < |key| - 1 ==> key[i] == key[..|key| - 1][i];
    assert forall i :: 0 <= i < n ==> key[..n][i] == key[..|key| - 1][i];
  }

  lemma TerminatedAt(key: Key, i: nat)
    requires Terminated(key) && i < |key| - 1
    ensures key[i] < 16
  {
    assert key[i] == key[..|key| - 1][i];
  }

  lemma PlainJoin(a: Key, b: Key)
    requires Plain(a) && Suffix(b) && b != []
    ensures Terminated(a + b)
  {
    var k := a + b;
    assert k[|k| - 1] == b[|b| - 1];
    assert k[..|k| - 1] == a + b[..|b| - 1];
  }

  /** A terminated key is a prefix of no other terminated key. */
  lemma PrefixFree(a: Key, b: Key)
    requires Terminated(a) && Terminated(b)
    ensures a <= b ==> a == b
  {
    if |a| < |b| { TerminatedAt(b, |a| - 1); }
  }

  // --- a canonical tree is determined by its contents ---

  /** A canonical non-empty tree holds some key. */
  lemma {:induction false} SomeKey(t: Tree) returns (key: Key)
    requires Canon(t) && t != Empty
    ensures Terminated(key) && Lookup(t, key).Some?
    decreases t
  {
    match t
    case Ext(k, s) =>
      if s.Leaf? {
        key := k;
        assert key[|k|..] == [];
      } else {
        var r := SomeKey(s);
        key := k + r;
        PlainJoin(k, r);
        Cut(k, r);
      }
    case Branch(kids) =>
      var i :| 0 <= i < 17 && kids[i] != Empty;
      key := KidKey(t, i);
  }

  /** A key held by child `i` of a full node. */
  lemma {:induction false} KidKey(t: Tree, i: nat) returns (key: Key)
    requires Canon(t) && t.Branch? && i < 17 && t.kids[i] != Empty
    ensures Terminated(key) && key[0] == i && Lookup(t, key).Some?
    decreases t, 0
  {
    if i == 16 {
      key := [16];
    } else {
      var r := SomeKey(t.kids[i]);
      key := [i] + r;
      PlainJoin([i], r);
      Cons(i, r);
    }
  }

  /** A full node holds two keys that part at the first nibble. */
  lemma TwoKeys(t: Tree) returns (a: Key, b: Key)
    requires Canon(t) && t.Branch?
    ensures Terminated(a) && Terminated(b) && a[0] != b[0]
    ensures Lookup(t, a).Some? && Lookup(t, b).Some?
  {
    var i, j :| 0 <= i < j < 17 && t.kids[i] != Empty && t.kids[j] != Empty;
    a := KidKey(t, i);
    b := KidKey(t, j);
  }

  ghost predicate SameContents(s: Tree, t: Tree) {
    forall key :: Terminated(key) ==> Lookup(s, key) == Lookup(t, key)
  }

  lemma KidLookup(t: Tree, i: Nibble, key: Key)
    requires t.Branch? && |t.kids| == 17
    ensures Lookup(t, [i] + key) == Lookup(t.kids[i], key)
  {
    Cons(i, key);
  }

  lemma SubLookup(t: Tree, key: Key)
    requires t.Ext?
    ensures Lookup(t, t.key + key) == Lookup(t.sub, key)
  {
    Cut(t.key, key);
  }

  lemma SameKid(s: Tree, t: Tree, i: nat)
    requires Canon(s) && Canon(t) && s.Branch? && t.Branch? && SameContents(s, t) && i < 16
    ensures SameContents(s.kids[i], t.kids[i])
  {
    forall key | Terminated(key) ensures Lookup(s.kids[i], key) == Lookup(t.kids[i], key) {
      PlainJoin([i], key);
      KidLookup(s, i, key);
      KidLookup(t, i, key);
    }
  }

  lemma SameSub(s: Tree, t: Tree)
    requires Canon(s) && Canon(t) && s.Ext? && t.Ext? && s.key == t.key && SameContents(s, t) && s.sub.Branch?
    requires t.sub.Branch?
    ensures SameContents(s.sub, t.sub)
  {
    forall key | Terminated(key) ensures Lookup(s.sub, key) == Lookup(t.sub, key) {
      PlainJoin(s.key, key);
      SubLookup(s, key);
      SubLookup(t, key);
    }
  }

  /** A key of one tree that the other does not hold tells them apart. */
  lemma Differ(s: Tree, t: Tree, key: Key)
    requires Terminated(key) && Lookup(s, key).Some? && Lookup(t, key).None?
    ensures !SameContents(s, t) && !SameContents(t, s)
  {
    assert Lookup(s, key) != Lookup(t, key);
  }

  /** A short node with a strictly shorter key has other contents. */
  lemma ShorterDiffers(s: Tree, t: Tree)
    requires Canon(s) && Canon(t) && s.Ext? && t.Ext? && |s.key| < |t.key|
    ensures !SameContents(s, t)
  {
    if Terminated(s.key) {
      var x := SomeKey(t);
      PrefixFree(s.key, x);
      Differ(t, s, x);
    } else {
      var a, b := TwoKeys(s.sub);
      var c := if t.key[|s.key|] == a[0] then b else a;
      PlainJoin(s.key, c);
      Cut(s.key, c);
      assert (s.key + c)[|s.key|] == c[0];
      Differ(s, t, s.key + c);
    }
  }

  /** So does one with another key of the same length. */
  lemma OtherKeyDiffers(s: Tree, t: Tree)
    requires Canon(s) && Canon(t) && s.Ext? && t.Ext? && |s.key| == |t.key| && s.key != t.key
    ensures !SameContents(s, t)
  {
    var x := SomeKey(t);
    assert t.key == x[..|t.key|];
    Differ(t, s, x);
  }

  /** A short node and a full node never have the same contents. */
  lemma ExtNotBranch(s: Tree, t: Tree)
    requires Canon(s) && Canon(t) && s.Ext? && t.Branch?
    ensures !SameContents(s, t)
  {
    var a, b := TwoKeys(t);
    Differ(t, s, if s.key[0] == a[0] then b else a);
  }

  /** Canonical trees with the same contents are the same tree. */
  lemma {:induction false} Unique(s: Tree, t: Tree)
    requires Canon(s) && Canon(t) && SameContents(s, t)
    ensures s == t
    decreases s
  {
    if s == t {
    } else if s.Empty? {
      var k := SomeKey(t);
      Differ(t, s, k);
    } else if t.Empty? {
      var k := SomeKey(s);
      Differ(s, t, k);
    } else if s.Ext? && t.Ext? {
      UniqueExt(s, t);
    } else if s.Branch? && t.Branch? {
      forall i | 0 <= i < 17 ensures s.kids[i] == t.kids[i] {
        if i < 16 {
          SameKid(s, t, i);
          Unique(s.kids[i], t.kids[i]);
        } else {
          assert Terminated([16]) && [16] + [] == [16];
          KidLookup(s, 16, []);
          KidLookup(t, 16, []);
        }
      }
    } else if s.Ext? {
      ExtNotBranch(s, t);
    } else {
      ExtNotBranch(t, s);
    }
  }

  lemma {:induction false} UniqueExt(s: Tree, t: Tree)
    requires Canon(s) && Canon(t) && s.Ext? && t.Ext? && SameContents(s, t)
    ensures s == t
    decreases s, 0
  {
    if |s.key| < |t.key| {
      ShorterDiffers(s, t);
    } else if |t.key| < |s.key| {
      ShorterDiffers(t, s);
    } else if s.key != t.key {
      OtherKeyDiffers(s, t);
    } else if s.sub.Leaf? {
      assert s.key + [] == s.key;
      SubLookup(s, []);
      SubLookup(t, []);
    } else {
      SameSub(s, t);
      Unique(s.sub, t.sub);
    }
  }
}
