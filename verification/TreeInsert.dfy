/** Insertion into a canonical tree: shape and contents. */
module TreeInsert {
  import opened Bytes
  import opened Hex
  import opened Tree

  function NoKids(): (kids: seq<Tree>)
    ensures |kids| == 17 && forall i :: 0 <= i < 17 ==> kids[i] == Empty
  {
    seq(17, _ => Empty)
  }

  /** Inserting into an empty slot: the node itself once the key is used up. */
  function Wrap(key: Key, v: Tree): Tree { if key == [] then v else Ext(key, v) }

  /** Two branches that part at `a != b`. */
  function Fork(a: Nibble, s: Tree, b: Nibble, v: Tree): (t: Tree)
    ensures t.Branch? && |t.kids| == 17
    ensures a != b ==> t.kids[a] == s && t.kids[b] == v
    ensures forall i :: 0 <= i < 17 && i != a && i != b ==> t.kids[i] == Empty
  {
    Branch(NoKids()[a := s][b := v])
  }

  /** Inserting node `v` under `key`. The key must not end inside a short node's key. */
  function Insert(t: Tree, key: Key, v: Tree): Tree {
    if key == [] then v
    else
      match t
      case Empty => Ext(key, v)
      case Leaf(_) => t
      case Ext(k, s) =>
        var m := PrefixLen(key, k);
        if m == |k| then Ext(k, Insert(s, key[m..], v))
        else if m == |key| then t
        else
          var branch := Fork(k[m], Wrap(k[m + 1..], s), key[m], Wrap(key[m + 1..], v));
          if m == 0 then branch else Ext(key[..m], branch)
      case Branch(kids) =>
        if |kids| != 17 then t else Branch(kids[key[0] := Insert(kids[key[0]], key[1..], v)])
  }

  // --- positions in terminated keys ---

  lemma LastNibble(key: Key)
    requires Terminated(key)
    ensures key[0] == 16 <==> |key| == 1
    ensures Suffix(key[1..])
  {
    if |key| > 1 {
      TerminatedAt(key, 0);
      TerminatedTail(key, 1);
    }
  }

  /** What is left behind a matching node key is terminated unless that key ends the whole key. */
  lemma KeyRest(key: Key, k: Key)
    requires Terminated(key) && k <= key
    ensures Terminated(k) <==> k == key
    ensures Plain(k) <==> k != key
    ensures Suffix(key[|k|..]) && (key[|k|..] == [] <==> k == key)
  {
    if k != key {
      TerminatedTail(key, |k|);
      assert k == key[..|k|];
    }
  }

  /** A node key that parts from the searched key parts before either ends. */
  lemma Parting(key: Key, k: Key)
    requires Terminated(key) && ValidHex(k) && PrefixLen(key, k) < |k|
    ensures var m := PrefixLen(key, k);
      m < |key| && key[m] != k[m] && Plain(key[..m]) && Suffix(key[m + 1..])
      && (key[m + 1..] == [] <==> key[m] == 16)
  {
    var m := PrefixLen(key, k);
    if m == |key| {
      assert k[..m] == key;
      assert k[|key| - 1] == 16;
      if Terminated(k) { TerminatedAt(k, |key| - 1); }
    }
    TerminatedTail(key, m);
    LastNibble(key[m..]);
    assert key[m..][1..] == key[m + 1..];
  }

  lemma WrapCanon(k: Key, s: Tree, n: nat)
    requires Canon(Ext(k, s)) && n < |k|
    ensures if k[n] == 16 then LeafOk(Wrap(k[n + 1..], s)) else Canon(Wrap(k[n + 1..], s))
    ensures Wrap(k[n + 1..], s) != Empty
  {
    if Terminated(k) {
      TerminatedTail(k, n);
      LastNibble(k[n..]);
      assert k[n..][1..] == k[n + 1..];
    }
  }

  lemma ForkCanon(a: Nibble, s: Tree, b: Nibble, v: Tree)
    requires a != b && s != Empty && v != Empty
    requires (if a == 16 then LeafOk(s) else Canon(s)) && (if b == 16 then LeafOk(v) else Canon(v))
    ensures Canon(Fork(a, s, b, v))
  {
    var t := Fork(a, s, b, v);
    var i, j := if a < b then a else b, if a < b then b else a;
    assert 0 <= i < j < 17 && t.kids[i] != Empty && t.kids[j] != Empty;
  }

  /** Insertion keeps the canonical shape. */
  lemma {:induction false} InsertCanon(t: Tree, key: Key, v: Blob)
    requires CanonAt(t, key) && Suffix(key) && v != []
    ensures CanonAt(Insert(t, key, Leaf(v)), key) && Insert(t, key, Leaf(v)) != Empty
    ensures t.Branch? && key != [] ==> Insert(t, key, Leaf(v)).Branch?
    decreases t
  {
    if key != [] {
      match t
      case Empty =>
      case Ext(k, s) =>
        var m := PrefixLen(key, k);
        if m == |k| {
          assert k == k[..m] == key[..m];
          KeyRest(key, k);
          InsertCanon(s, key[m..], v);
        } else {
          InsertFork(t, key, v);
        }
      case Branch(kids) =>
        LastNibble(key);
        var i := key[0];
        InsertCanon(kids[i], key[1..], v);
        BranchKid(kids, i, Insert(kids[i], key[1..], Leaf(v)));
    }
  }

  /** Filling a child of a full node. */
  lemma BranchKid(kids: seq<Tree>, i: Nibble, kid: Tree)
    requires Canon(Branch(kids)) && kid != Empty && (if i == 16 then LeafOk(kid) else Canon(kid))
    ensures Canon(Branch(kids[i := kid]))
  {
    var a, b :| 0 <= a < b < 17 && kids[a] != Empty && kids[b] != Empty;
    assert kids[i := kid][a] != Empty && kids[i := kid][b] != Empty;
  }

  lemma InsertFork(t: Tree, key: Key, v: Blob)
    requires Canon(t) && t.Ext? && Terminated(key) && v != [] && PrefixLen(key, t.key) < |t.key|
    ensures Canon(Insert(t, key, Leaf(v)))
  {
    var k, m := t.key, PrefixLen(key, t.key);
    Parting(key, k);
    WrapCanon(k, t.sub, m);
    assert Canon(Ext(key, Leaf(v)));
    WrapCanon(key, Leaf(v), m);
    ForkCanon(k[m], Wrap(k[m + 1..], t.sub), key[m], Wrap(key[m + 1..], Leaf(v)));
  }

  // --- contents ---

  lemma WrapLookup(k: Key, s: Tree, q: Key)
    ensures Lookup(Wrap(k, s), q) == if k <= q then Lookup(s, q[|k|..]) else None
  {
    if k == [] { assert q[0..] == q; }
  }

  lemma ForkLookup(a: Nibble, s: Tree, b: Nibble, v: Tree, q: Key)
    requires a != b && q != []
    ensures Lookup(Fork(a, s, b, v), q) ==
      if q[0] == a then Lookup(s, q[1..]) else if q[0] == b then Lookup(v, q[1..]) else None
  {}

  lemma PrefixSplit(k: Key, m: nat, q: Key)
    requires m < |k|
    ensures k <= q <==> k[..m] <= q && |q| > m && q[m] == k[m] && k[m + 1..] <= q[m + 1..]
  {
    if k[..m] <= q && |q| > m && q[m] == k[m] && k[m + 1..] <= q[m + 1..] {
      forall i | 0 <= i < |k| ensures q[i] == k[i] {
        if i < m { assert k[..m][i] == q[i]; }
        if i > m { assert k[m + 1..][i - m - 1] == q[m + 1..][i - m - 1]; }
      }
    }
    if k <= q {
      assert k[m + 1..] <= q[m + 1..];
    }
  }

  /** After an insertion the key has the new value and every other key is as before. */
  lemma {:induction false} InsertLookup(t: Tree, key: Key, v: Blob, q: Key)
    requires CanonAt(t, key) && Suffix(key) && Suffix(q) && (key == [] <==> q == [])
    ensures Lookup(Insert(t, key, Leaf(v)), q) == if q == key then Some(v) else Lookup(t, q)
    decreases t, 1
  {
    if key != [] {
      match t
      case Empty => PrefixFree(key, q);
      case Ext(_, _) =>
        if PrefixLen(key, t.key) == |t.key| {
          InsertLookupExt(t, key, v, q);
        } else {
          InsertForkLookup(t, key, v, q);
        }
      case Branch(_) => InsertLookupBranch(t, key, v, q);
    }
  }

  lemma {:induction false} InsertLookupExt(t: Tree, key: Key, v: Blob, q: Key)
    requires Canon(t) && t.Ext? && Terminated(key) && Terminated(q) && PrefixLen(key, t.key) == |t.key|
    ensures Lookup(Insert(t, key, Leaf(v)), q) == if q == key then Some(v) else Lookup(t, q)
    decreases t, 0
  {
    var k, m := t.key, |t.key|;
    assert k == k[..m] == key[..m];
    if k <= q {
      KeyRest(key, k);
      KeyRest(q, k);
      PrefixFree(key, q);
      PrefixFree(q, key);
      InsertLookup(t.sub, key[m..], v, q[m..]);
      TailsEqual(key, q, m);
    }
  }

  lemma {:induction false} InsertLookupBranch(t: Tree, key: Key, v: Blob, q: Key)
    requires Canon(t) && t.Branch? && Terminated(key) && Terminated(q)
    ensures Lookup(Insert(t, key, Leaf(v)), q) == if q == key then Some(v) else Lookup(t, q)
    decreases t, 0
  {
    LastNibble(key);
    LastNibble(q);
    if key[0] == q[0] {
      InsertLookup(t.kids[key[0]], key[1..], v, q[1..]);
      TailsEqual(key, q, 1);
    }
  }

  lemma TailsEqual(a: Key, b: Key, m: nat)
    requires m <= |a| && m <= |b| && a[..m] == b[..m]
    ensures a == b <==> a[m..] == b[m..]
  {
    Split(a, m);
    Split(b, m);
  }

  lemma InsertForkLookup(t: Tree, key: Key, v: Blob, q: Key)
    requires Canon(t) && t.Ext? && Terminated(key) && Terminated(q) && PrefixLen(key, t.key) < |t.key|
    ensures Lookup(Insert(t, key, Leaf(v)), q) == if q == key then Some(v) else Lookup(t, q)
  {
    var k, m := t.key, PrefixLen(key, t.key);
    Parting(key, k);
    PrefixSplit(k, m, q);
    PrefixSplit(key, m, q);
    PrefixFree(key, q);
    if key[..m] <= q {
      KeyRest(q, key[..m]);
      ForkedLookup(t, key, v, q, m);
      if m == 0 { assert q[0..] == q; }
    }
  }

  /** Lookup in the branch at which the two keys part. */
  lemma ForkedLookup(t: Tree, key: Key, v: Blob, q: Key, m: nat)
    requires t.Ext? && m < |t.key| && m < |key| && m < |q| && t.key[m] != key[m] && t.key[..m] == key[..m] == q[..m]
    ensures Lookup(Fork(t.key[m], Wrap(t.key[m + 1..], t.sub), key[m], Wrap(key[m + 1..], Leaf(v))), q[m..]) ==
      if key <= q then Lookup(Leaf(v), q[|key|..]) else if t.key <= q then Lookup(t.sub, q[|t.key|..]) else None
  {
    hide Fork, Wrap, Lookup;
    var k := t.key;
    var r := q[m..];
    assert r[0] == q[m] && r[1..] == q[m + 1..];
    ForkLookup(k[m], Wrap(k[m + 1..], t.sub), key[m], Wrap(key[m + 1..], Leaf(v)), r);
    WrapLookup(k[m + 1..], t.sub, r[1..]);
    WrapLookup(key[m + 1..], Leaf(v), r[1..]);
    PrefixSplit(k, m, q);
    PrefixSplit(key, m, q);
    if k <= q { assert r[1..][|k[m + 1..]|..] == q[|k|..]; }
    if key <= q { assert r[1..][|key[m + 1..]|..] == q[|key|..]; }
  }
}
