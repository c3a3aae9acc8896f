/** The trie object (fast/trie.go): reads and updates over partially unloaded nodes,
    proved against the tree the nodes stand for. */
module Trie {
  import opened Bytes
  import opened Hex
  import opened Tree
  import opened TreeInsert
  import opened TreeDelete
  import opened Node
  import opened Memory
  import Rlp
  import RlpEncoder

  /** Loads the node with digest `d`, which stands for `t`. A blob found under it always decodes. */
  method LoadNode(h: Hasher, ghost u: iset<Blob>, db: Store, gen: Uint16, d: Digest, ghost t: Tree, ghost top: bool)
    returns (n: Node, err: Option<Digest>)
    requires Universe(h, u) && Addressed(h, u, db) && Canon(t) && Within(h, u, t) && Repr(h, HashRef(d), t, top)
    ensures d !in db ==> err == Some(d)
    ensures d in db ==> err == None && (n.Short? || n.Full?) && Repr(h, n, t, top) && Cached(h, n, t)
    ensures StoredTop(h, db, t) ==> err == None && Avail(h, db, n, t, top)
  {
    if d !in db { return Nil, Some(d); }
    err := None;
    Fetched(h, u, db, t);
    assert Enc(h, t) + [] == Enc(h, t);
    DecodeStored(h, t, Some(d), gen, []);
    var r := DecodeNode(Some(d), db[d], gen);
    n := r.value;
    LoadedRepr(h, t, Some(d), gen, top);
    LoadedCached(h, t, Some(d), gen);
    if StoredTop(h, db, t) { LoadedAvail(h, db, t, Some(d), gen, top); }
  }

  class Trie {
    const h: Hasher
    ghost const u: iset<Blob>     // every blob of the run
    var db: Store
    var root: Node
    var cachegen: Uint16
    var cachelimit: Uint16
    ghost var tree: Tree          // what `root` stands for

    ghost predicate Env() reads this`db { Universe(h, u) && Addressed(h, u, db) }

    ghost predicate Valid() reads this {
      Env() && Canon(tree) && Within(h, u, tree) && Repr(h, root, tree, true)
    }

    /** Every node still needed can be loaded. */
    ghost predicate Complete() reads this { Avail(h, db, root, tree, true) }

    function NewFlag(): Flag reads this`cachegen { Flag(None, cachegen, true) }

    // --- resolving ---

    method ResolveHash(d: Digest, ghost t: Tree, ghost top: bool) returns (n: Node, err: Option<Digest>)
      requires Env() && Canon(t) && Within(h, u, t) && Repr(h, HashRef(d), t, top)
      ensures d !in db ==> err == Some(d)
      ensures d in db ==> err == None && (n.Short? || n.Full?) && Repr(h, n, t, top) && Cached(h, n, t)
      ensures StoredTop(h, db, t) ==> err == None && Avail(h, db, n, t, top)
    {
      n, err := LoadNode(h, u, db, cachegen, d, t, top);
    }

    method Resolve(n: Node, ghost t: Tree) returns (r: Node, err: Option<Digest>)
      requires Env() && Canon(t) && Repr(h, n, t, false) && (n.HashRef? ==> Within(h, u, t))
      ensures err.Some? ==> err.value !in db
      ensures err.None? ==> !r.HashRef? && Repr(h, r, t, false) && (Cached(h, n, t) ==> Cached(h, r, t))
      ensures Avail(h, db, n, t, false) ==> err == None && Avail(h, db, r, t, false)
    {
      if n.HashRef? {
        r, err := ResolveHash(n.digest, t, false);
      } else {
        r, err := n, None;
      }
    }

    // --- reading ---

    method Get(orig: Node, key: Key, pos: nat, ghost t: Tree, ghost top: bool)
      returns (value: Option<Blob>, newnode: Node, didResolve: bool, err: Option<Digest>)
      requires Env() && Within(h, u, t) && Repr(h, orig, t, top)
      requires pos <= |key| && Suffix(key[pos..]) && CanonAt(t, key[pos..])
      ensures err.None? ==> value == Lookup(t, key[pos..]) && Repr(h, newnode, t, top)
      ensures err.None? && !didResolve ==> newnode == orig
      ensures err.None? && Cached(h, orig, t) ==> Cached(h, newnode, t)
      ensures err.Some? ==> err.value !in db
      ensures Avail(h, db, orig, t, top) ==> err == None && Avail(h, db, newnode, t, top)
      decreases t, if orig.HashRef? then 2 else 1
    {
      hide Enc, Hashed, StoredTop, Terminated, Within;
      match orig
      case Nil => return None, Nil, false, None;
      case Value(v) => return Some(v), orig, false, None;
      case Short(_, _, _) => value, newnode, didResolve, err := GetShort(orig, key, pos, t, top);
      case Full(_, _) => value, newnode, didResolve, err := GetFull(orig, key, pos, t, top);
      case HashRef(d) =>
        didResolve := true;
        var child;
        child, err := ResolveHash(d, t, top);
        if err.Some? { return None, orig, true, err; }
        var resolved;
        value, newnode, resolved, err := Get(child, key, pos, t, top);
    }

    method GetShort(orig: Node, key: Key, pos: nat, ghost t: Tree, ghost top: bool)
      returns (value: Option<Blob>, newnode: Node, didResolve: bool, err: Option<Digest>)
      requires orig.Short?
      requires Env() && Within(h, u, t) && Repr(h, orig, t, top)
      requires pos <= |key| && Suffix(key[pos..]) && CanonAt(t, key[pos..])
      ensures err.None? ==> value == Lookup(t, key[pos..]) && Repr(h, newnode, t, top)
      ensures err.None? && !didResolve ==> newnode == orig
      ensures err.None? && Cached(h, orig, t) ==> Cached(h, newnode, t)
      ensures err.Some? ==> err.value !in db
      ensures Avail(h, db, orig, t, top) ==> err == None && Avail(h, db, newnode, t, top)
      decreases t, 0
    {
      hide Enc, Hashed, StoredTop, Terminated;
      var k, c, f := orig.key, orig.val, orig.flags;
      if |key| - pos < |k| || k != key[pos..pos + |k|] {
        return None, orig, false, None;
      }
      assert k <= key[pos..];
      KeyRest(key[pos..], k);
      assert key[pos..][|k|..] == key[pos + |k|..];
      var child;
      value, child, didResolve, err := Get(c, key, pos + |k|, t.sub, false);
      newnode := if err.None? && didResolve then Short(k, child, f.(gen := cachegen)) else orig;
      if err.None? && CachedBelow(h, orig, t) { assert CachedBelow(h, newnode, t); }
    }

    method GetFull(orig: Node, key: Key, pos: nat, ghost t: Tree, ghost top: bool)
      returns (value: Option<Blob>, newnode: Node, didResolve: bool, err: Option<Digest>)
      requires orig.Full?
      requires Env() && Within(h, u, t) && Repr(h, orig, t, top)
      requires pos <= |key| && Suffix(key[pos..]) && CanonAt(t, key[pos..])
      ensures err.None? ==> value == Lookup(t, key[pos..]) && Repr(h, newnode, t, top)
      ensures err.None? && !didResolve ==> newnode == orig
      ensures err.None? && Cached(h, orig, t) ==> Cached(h, newnode, t)
      ensures err.Some? ==> err.value !in db
      ensures Avail(h, db, orig, t, top) ==> err == None && Avail(h, db, newnode, t, top)
      decreases t, 0
    {
      hide Enc, Hashed, StoredTop, Terminated;
      var cs, f := orig.children, orig.flags;
      LastNibble(key[pos..]);
      assert key[pos..][1..] == key[pos + 1..];
      var i, child := key[pos], Nil;
      value, child, didResolve, err := Get(cs[i], key, pos + 1, t.kids[i], false);
      newnode := if err.None? && didResolve then Full(cs[i := child], f.(gen := cachegen)) else orig;
      if err.None? && CachedBelow(h, orig, t) { assert CachedBelow(h, newnode, t); }
    }

    method TryGet(key: Blob) returns (value: Option<Blob>, err: Option<Digest>)
      requires Valid()
      modifies this`root
      ensures Valid()
      ensures err.None? ==> value == Lookup(tree, KeyHex(key))
      ensures err.Some? ==> err.value !in db
      ensures old(Complete()) ==> Complete() && err == None
    {
      var k := KeybytesToHex(key);
      assert k[0..] == k;
      var newroot, didResolve;
      value, newroot, didResolve, err := Get(root, k, 0, tree, true);
      if err.None? && didResolve { root := newroot; }
    }

    // --- inserting ---

    /** Puts node `value`, standing for `tv`, into an empty slot. */
    method InsertNil(key: Key, value: Node, ghost tv: Tree, ghost top: bool) returns (nn: Node)
      requires Repr(h, value, tv, false) && (key == [] ==> !top)
      ensures Repr(h, nn, Wrap(key, tv), top) && !nn.Nil? == !(key == [] && value.Nil?)
      ensures Avail(h, db, value, tv, false) ==> Avail(h, db, nn, Wrap(key, tv), top)
    {
      nn := if key == [] then value else Short(key, value, NewFlag());
    }

    /** Splits a short node where its key parts from the inserted one. */
    method InsertFork(n: Node, key: Key, matchlen: nat, v: Blob, ghost t: Tree, ghost top: bool) returns (nn: Node)
      requires n.Short? && Repr(h, n, t, top) && Canon(t) && Terminated(key)
      requires matchlen == PrefixLen(key, n.key) < |n.key|
      ensures Repr(h, nn, TreeInsert.Insert(t, key, Leaf(v)), top)
      ensures Avail(h, db, n, t, top) ==> Avail(h, db, nn, TreeInsert.Insert(t, key, Leaf(v)), top)
    {
      hide Enc, Hashed, StoredTop, Terminated, Canon;
      var k := n.key;
      assert ValidHex(k) by { CanonKey(t); }
      Parting(key, k);
      var a := InsertNil(k[matchlen + 1..], n.val, t.sub, false);
      var b := InsertNil(key[matchlen + 1..], Value(v), Leaf(v), false);
      var cs := seq(17, _ => Nil)[k[matchlen] := a][key[matchlen] := b];
      var branch := Full(cs, NewFlag());
      ForkRepr(h, db, k[matchlen], a, Wrap(k[matchlen + 1..], t.sub), key[matchlen], b,
        Wrap(key[matchlen + 1..], Leaf(v)), NewFlag());
      nn := if matchlen == 0 then branch else Short(key[..matchlen], branch, NewFlag());
    }

    /** The recursive insertion; nodes on the path are copied, all others are shared. */
    method Insert(n: Node, key: Key, v: Blob, ghost t: Tree, ghost top: bool)
      returns (dirty: bool, nn: Node, err: Option<Digest>)
      requires Env() && Within(h, u, t) && Repr(h, n, t, top)
      requires Suffix(key) && CanonAt(t, key) && v != [] && (key == [] ==> !top)
      ensures err.Some? ==> err.value !in db
      ensures err.None? ==> (dirty <==> Lookup(t, key) != Some(v))
      ensures err.None? && dirty ==> Repr(h, nn, TreeInsert.Insert(t, key, Leaf(v)), top)
      ensures err.None? && !dirty ==> Repr(h, nn, t, top)
      ensures Avail(h, db, n, t, top) ==>
        err == None && Avail(h, db, nn, if dirty then TreeInsert.Insert(t, key, Leaf(v)) else t, top)
      decreases t, if n.HashRef? then 2 else 1
    {
      hide Enc, Hashed, StoredTop, Terminated, Canon, PrefixLen, Fork, Within;
      if |key| == 0 {
        return n != Value(v), Value(v), None;
      }
      NotLeaf(t);
      match n
      case Short(_, _, _) => dirty, nn, err := InsertShort(n, key, v, t, top);
      case Full(_, _) => dirty, nn, err := InsertFull(n, key, v, t, top);
      case Nil =>
        dirty, nn, err := true, Short(key, Value(v), NewFlag()), None;
      case HashRef(d) =>
        var rn;
        rn, err := ResolveHash(d, t, top);
        if err.Some? { return false, Nil, err; }
        dirty, nn, err := Insert(rn, key, v, t, top);
        if !dirty || err.Some? { return false, rn, err; }
    }

    method InsertShort(n: Node, key: Key, v: Blob, ghost t: Tree, ghost top: bool)
      returns (dirty: bool, nn: Node, err: Option<Digest>)
      requires n.Short?
      requires Env() && Within(h, u, t) && Repr(h, n, t, top)
      requires Suffix(key) && key != [] && Canon(t) && !t.Leaf? && v != []
      ensures err.Some? ==> err.value !in db
      ensures err.None? ==> (dirty <==> Lookup(t, key) != Some(v))
      ensures err.None? && dirty ==> Repr(h, nn, TreeInsert.Insert(t, key, Leaf(v)), top)
      ensures err.None? && !dirty ==> Repr(h, nn, t, top)
      ensures Avail(h, db, n, t, top) ==>
        err == None && Avail(h, db, nn, if dirty then TreeInsert.Insert(t, key, Leaf(v)) else t, top)
      decreases t, 0
    {
      hide Enc, Hashed, StoredTop, Terminated, Canon, PrefixLen, Fork;
      var k := n.key;
      var matchlen := ComputePrefixLen(key, k);
      if matchlen == |k| {
        assert k == k[..matchlen] == key[..matchlen];
        CanonSubAt(t, key);
        var child;
        dirty, child, err := Insert(n.val, key[matchlen..], v, t.sub, false);
        if !dirty || err.Some? { return false, n, err; }
        nn := Short(k, child, NewFlag());
      } else {
        dirty, err := true, None;
        nn := InsertFork(n, key, matchlen, v, t, top);
        PartedAbsent(t, key);
      }
    }

    method InsertFull(n: Node, key: Key, v: Blob, ghost t: Tree, ghost top: bool)
      returns (dirty: bool, nn: Node, err: Option<Digest>)
      requires n.Full?
      requires Env() && Within(h, u, t) && Repr(h, n, t, top)
      requires Suffix(key) && key != [] && Canon(t) && !t.Leaf? && v != []
      ensures err.Some? ==> err.value !in db
      ensures err.None? ==> (dirty <==> Lookup(t, key) != Some(v))
      ensures err.None? && dirty ==> Repr(h, nn, TreeInsert.Insert(t, key, Leaf(v)), top)
      ensures err.None? && !dirty ==> Repr(h, nn, t, top)
      ensures Avail(h, db, n, t, top) ==>
        err == None && Avail(h, db, nn, if dirty then TreeInsert.Insert(t, key, Leaf(v)) else t, top)
      decreases t, 0
    {
      hide Enc, Hashed, StoredTop, Terminated, Canon, PrefixLen, Fork;
      CanonKidAt(t, key);
      var child;
      dirty, child, err := Insert(n.children[key[0]], key[1..], v, t.kids[key[0]], false);
      if !dirty || err.Some? { return false, n, err; }
      nn := Full(n.children[key[0] := child], NewFlag());
      ReplaceKid(h, db, n, t, top, key[0], child, TreeInsert.Insert(t.kids[key[0]], key[1..], Leaf(v)), NewFlag());
    }

    // --- deleting ---

    /** Index of the only child left, or 17 when there are none or several. */
    method OnlyChild(cs: seq<Node>, ghost kids: seq<Tree>) returns (pos: nat)
      requires |cs| == |kids| == 17 && forall i :: 0 <= i < 17 ==> (cs[i].Nil? <==> kids[i].Empty?)
      requires exists i :: 0 <= i < 17 && !cs[i].Nil?
      ensures pos <= 17
      ensures pos == (if FirstKid(kids, FirstKid(kids, 0) + 1) == 17 then FirstKid(kids, 0) else 17)
    {
      ghost var p := FirstKid(kids, 0);
      var found: int, i: nat := -1, 0;
      while i < 17 && found != -2
        invariant 0 <= i <= 17
        invariant found == -1 ==> i <= p
        invariant found >= 0 ==> found == p < i && FirstKid(kids, p + 1) >= i
        invariant found == -2 ==> FirstKid(kids, p + 1) < 17
        invariant found >= -2
      {
        if !cs[i].Nil? {
          if found == -1 { found := i; } else { found := -2; }
        }
        i := i + 1;
      }
      pos := if found >= 0 then found else 17;
    }

    /** A full node after one of its children changed: collapse it if a single child is left. */
    method Collapse(cs: seq<Node>, ghost kids: seq<Tree>, ghost top: bool) returns (nn: Node, err: Option<Digest>)
      requires Env() && KidsOk(kids) && |cs| == 17
      requires forall i :: 0 <= i < 17 ==> Repr(h, cs[i], kids[i], false)
      requires forall i :: 0 <= i < 17 && cs[i].HashRef? ==> Within(h, u, kids[i])
      requires exists i :: 0 <= i < 17 && !cs[i].Nil?
      ensures err.Some? ==> err.value !in db
      ensures err.None? ==> Repr(h, nn, Shrink(kids), top) && !nn.HashRef?
      ensures (forall i :: 0 <= i < 17 ==> Avail(h, db, cs[i], kids[i], false)) ==>
        err == None && Avail(h, db, nn, Shrink(kids), top)
    {
      hide Enc, Hashed, StoredTop, Canon, FirstKid;
      err := None;
      var pos := OnlyChild(cs, kids);
      if pos < 17 {
        if pos != 16 {
          var cnode;
          cnode, err := Resolve(cs[pos], kids[pos]);
          if err.Some? { return Nil, err; }
          if cnode.Short? {
            return Short([pos] + cnode.key, cnode.val, NewFlag()), None;
          }
        }
        nn := Short([pos], cs[pos], NewFlag());
      } else {
        nn := Full(cs, NewFlag());
      }
    }

    /** The recursive deletion. */
    method Delete(n: Node, key: Key, ghost t: Tree, ghost top: bool)
      returns (dirty: bool, nn: Node, err: Option<Digest>)
      requires Env() && Within(h, u, t) && Repr(h, n, t, top)
      requires Suffix(key) && CanonAt(t, key)
      ensures err.Some? ==> err.value !in db
      ensures err.None? ==> (dirty <==> Lookup(t, key).Some?)
      ensures err.None? && dirty ==> Repr(h, nn, TreeDelete.Delete(t, key), top) && !nn.HashRef?
      ensures err.None? && !dirty ==> Repr(h, nn, t, top)
      ensures Avail(h, db, n, t, top) ==>
        err == None && Avail(h, db, nn, if dirty then TreeDelete.Delete(t, key) else t, top)
      decreases t, if n.HashRef? then 2 else 1
    {
      hide Enc, Hashed, StoredTop, Terminated, Canon, PrefixLen, Shrink, Within;
      if key != [] { NotLeaf(t); }
      match n
      case Short(_, _, _) => dirty, nn, err := DeleteShort(n, key, t, top);
      case Full(_, _) => dirty, nn, err := DeleteFull(n, key, t, top);
      case Value(_) => return true, Nil, None;
      case Nil => return false, Nil, None;
      case HashRef(d) =>
        var rn;
        rn, err := ResolveHash(d, t, top);
        if err.Some? { return false, Nil, err; }
        dirty, nn, err := Delete(rn, key, t, top);
        if !dirty || err.Some? { return false, rn, err; }
    }

    method DeleteShort(n: Node, key: Key, ghost t: Tree, ghost top: bool)
      returns (dirty: bool, nn: Node, err: Option<Digest>)
      requires n.Short?
      requires Env() && Within(h, u, t) && Repr(h, n, t, top)
      requires Suffix(key) && key != [] && Canon(t) && !t.Leaf?
      ensures err.Some? ==> err.value !in db
      ensures err.None? ==> (dirty <==> Lookup(t, key).Some?)
      ensures err.None? && dirty ==> Repr(h, nn, TreeDelete.Delete(t, key), top) && !nn.HashRef?
      ensures err.None? && !dirty ==> Repr(h, nn, t, top)
      ensures Avail(h, db, n, t, top) ==>
        err == None && Avail(h, db, nn, if dirty then TreeDelete.Delete(t, key) else t, top)
      decreases t, 0
    {
      hide Enc, Hashed, StoredTop, Terminated, Canon, PrefixLen, Shrink;
      var k := n.key;
      var matchlen := ComputePrefixLen(key, k);
      if matchlen < |k| {
        PartedAbsent(t, key);
        return false, n, None;
      }
      assert k == k[..matchlen] == key[..matchlen];
      CanonSubAt(t, key);
      if matchlen == |key| {
        assert k == key;
        return true, Nil, None;
      }
      var child;
      dirty, child, err := Delete(n.val, key[|k|..], t.sub, false);
      if !dirty || err.Some? { return false, n, err; }
      nn := if child.Short? then Short(k + child.key, child.val, NewFlag()) else Short(k, child, NewFlag());
    }

    method DeleteFull(n: Node, key: Key, ghost t: Tree, ghost top: bool)
      returns (dirty: bool, nn: Node, err: Option<Digest>)
      requires n.Full?
      requires Env() && Within(h, u, t) && Repr(h, n, t, top)
      requires Suffix(key) && key != [] && Canon(t) && !t.Leaf?
      ensures err.Some? ==> err.value !in db
      ensures err.None? ==> (dirty <==> Lookup(t, key).Some?)
      ensures err.None? && dirty ==> Repr(h, nn, TreeDelete.Delete(t, key), top) && !nn.HashRef?
      ensures err.None? && !dirty ==> Repr(h, nn, t, top)
      ensures Avail(h, db, n, t, top) ==>
        err == None && Avail(h, db, nn, if dirty then TreeDelete.Delete(t, key) else t, top)
      decreases t, 0
    {
      hide Enc, Hashed, StoredTop, Terminated, Canon, PrefixLen, Shrink;
      CanonKidAt(t, key);
      var child;
      dirty, child, err := Delete(n.children[key[0]], key[1..], t.kids[key[0]], false);
      if !dirty || err.Some? { return false, n, err; }
      ghost var kid := TreeDelete.Delete(t.kids[key[0]], key[1..]);
      AfterDelete(h, u, t, key);
      ReplaceKid(h, db, n, t, top, key[0], child, kid, NewFlag());
      nn, err := Collapse(n.children[key[0] := child], t.kids[key[0] := kid], top);
      if err.Some? { return false, Nil, err; }
    }

    // --- the public operations ---

    /** An empty value deletes. A missing node leaves the trie as it was. */
    method TryUpdate(key: Blob, value: Blob) returns (err: Option<Digest>)
      requires Valid() && Within(h, u, Apply(tree, Put(key, value)))
      modifies this`root, this`tree
      ensures Valid()
      ensures err.None? ==> tree == Apply(old(tree), Put(key, value))
      ensures err.Some? ==> err.value !in db && root == old(root) && tree == old(tree)
      ensures old(Complete()) ==> Complete() && err == None
    {
      hide Canon, Repr, Within, Avail, Universe, Addressed, Lookup, TreeInsert.Insert, TreeDelete.Delete;
      var k := KeybytesToHex(key);
      ApplySound(tree, Put(key, value), k);
      if |value| != 0 {
        var dirty, n;
        dirty, n, err := Insert(root, k, value, tree, true);
        if err.Some? { return; }
        if !dirty { InsertSame(tree, k, value); }
        root, tree := n, Apply(tree, Put(key, value));
      } else {
        err := TryDelete(key);
      }
    }

    method TryDelete(key: Blob) returns (err: Option<Digest>)
      requires Valid() && Within(h, u, Apply(tree, Put(key, [])))
      modifies this`root, this`tree
      ensures Valid()
      ensures err.None? ==> tree == Apply(old(tree), Put(key, []))
      ensures err.Some? ==> err.value !in db && root == old(root) && tree == old(tree)
      ensures old(Complete()) ==> Complete() && err == None
    {
      var k := KeybytesToHex(key);
      ApplySound(tree, Put(key, []), k);
      var dirty, n;
      dirty, n, err := Delete(root, k, tree, true);
      if err.Some? { return; }
      if !dirty { DeleteAbsent(tree, k); }
      root, tree := n, Apply(tree, Put(key, []));
    }

    // --- hashing and committing (fast/hasher.go) ---

    predicate CanUnload(f: Flag) reads this`cachegen, this`cachelimit {
      !f.dirty && (cachegen - f.gen) % 0x1_0000 >= cachelimit
    }

    /** Encodes a collapsed node and hashes it; small nodes stay inline unless forced. A known
        hash is reused, and `commit` writes the blob under it unless it is there already. */
    method StoreNode(v: Rlp.Value, known: Option<Digest>, ghost t: Tree, commit: bool,
                     force: bool) returns (hashed: Option<Digest>)
      requires Env() && Inner(t) && Within(h, u, t) && v == NodeVal(h, t)
      requires known.Some? ==> known.value == h(Enc(h, t))
      modifies this`db
      ensures Env() && Extends(old(db), db) && (!commit ==> db == old(db))
      ensures hashed == if force || Hashed(h, t) then Some(h(Enc(h, t))) else None
      ensures commit && hashed.Some? ==> h(Enc(h, t)) in db
    {
      assert Enc(h, t) in u;
      var enc := RlpEncoder.EncodeToBytes(v);
      if |enc| < 32 && !force { return None; }
      var d := if known.Some? then known.value else h(enc);
      if commit && d !in db {
        db := db[d := enc];
      }
      hashed := Some(d);
    }

    /** Hashes a node: the reference its parent embeds, and the node to keep in memory, which
        may have been unloaded. `full` says that nothing was missing before. */
    method HashNode(n: Node, ghost t: Tree, commit: bool, force: bool, ghost full: bool)
      returns (ref: Rlp.Value, cached: Node)
      requires Env() && Canon(t) && Inner(t) && Within(h, u, t) && Repr(h, n, t, force)
      requires full ==> Avail(h, db, n, t, force)
      modifies this`db
      ensures Env() && Extends(old(db), db) && (!commit ==> db == old(db))
      ensures ref == if force then Rlp.Str(h(Enc(h, t))) else RefVal(h, t)
      ensures Repr(h, cached, t, force) && Cached(h, cached, t)
      ensures full ==> Avail(h, db, cached, t, force)
      ensures full && commit ==> Stored(h, db, t) && (force ==> StoredTop(h, db, t))
      decreases t, 3
    {
      hide Canon, Within, StoredSubs, NodeVal;
      if n.HashRef? {
        return Rlp.Str(n.digest), n;
      }
      var f := n.flags;
      if f.hash.Some? {
        if !commit { return Rlp.Str(f.hash.value), n; }
        if CanUnload(f) { return Rlp.Str(f.hash.value), HashRef(f.hash.value); }
        if !f.dirty { return Rlp.Str(f.hash.value), n; }
      }
      var collapsed, kept := HashChildren(n, t, commit, force, full);
      ghost var db1 := db;
      var hashed := StoreNode(collapsed, f.hash, t, commit, force);
      ref := if hashed.Some? then Rlp.Str(hashed.value) else collapsed;
      var flags := kept.flags.(hash := hashed, dirty := if commit then false else f.dirty);
      cached := if kept.Short? then Short(kept.key, kept.val, flags) else Full(kept.children, flags);
      if full {
        AvailGrows(h, db1, db, kept, t, force);
        if StoredSubs(h, db1, t) { StoredSubsGrows(h, db1, db, t); }
      }
    }

    /** Hashes the children of a node; the collapsed node is what gets encoded. */
    method HashChildren(n: Node, ghost t: Tree, commit: bool, ghost top: bool, ghost full: bool)
      returns (collapsed: Rlp.Value, kept: Node)
      requires Env() && Canon(t) && Within(h, u, t) && (n.Short? || n.Full?) && Repr(h, n, t, top)
      requires full ==> Avail(h, db, n, t, top)
      modifies this`db
      ensures Env() && Extends(old(db), db) && (!commit ==> db == old(db))
      ensures collapsed == NodeVal(h, t)
      ensures (n.Short? <==> kept.Short?) && (n.Full? <==> kept.Full?) && kept.flags == n.flags
      ensures Repr(h, kept, t, top) && CachedBelow(h, kept, t)
      ensures full ==> Avail(h, db, kept, t, top)
      ensures full && commit ==> StoredSubs(h, db, t)
      decreases t, 2
    {
      if n.Short? {
        collapsed, kept := HashShort(n, t, commit, top, full);
      } else {
        collapsed, kept := HashFull(n, t, commit, top, full);
      }
    }

    method HashShort(n: Node, ghost t: Tree, commit: bool, ghost top: bool, ghost full: bool)
      returns (collapsed: Rlp.Value, kept: Node)
      requires n.Short?
      requires Env() && Canon(t) && Within(h, u, t) && Repr(h, n, t, top)
      requires full ==> Avail(h, db, n, t, top)
      modifies this`db
      ensures Env() && Extends(old(db), db) && (!commit ==> db == old(db))
      ensures collapsed == NodeVal(h, t)
      ensures kept.Short? && kept.flags == n.flags
      ensures Repr(h, kept, t, top) && CachedBelow(h, kept, t)
      ensures full ==> Avail(h, db, kept, t, top)
      ensures full && commit ==> StoredSubs(h, db, t)
      decreases t, 1
    {
      hide Enc, Hashed, Canon;
      ghost var db0 := db;
      CanonSub(t);
      var ck := HexToCompact(n.key);
      var ref, c := Rlp.Str([]), n.val;
      if n.val.Value? {
        ref := Rlp.Str(n.val.blob);
        LeafRef(h, n.val.blob, 0);
        LeafStored(h, db, t.sub);
        assert Cached(h, c, t.sub);
      } else {
        ref, c := HashNode(n.val, t.sub, commit, false, full);
      }
      collapsed, kept := Rlp.Lst([Rlp.Str(ck), ref]), Short(n.key, c, n.flags);
      if full && StoredSubs(h, db0, t) { StoredSubsGrows(h, db0, db, t); }
    }

    method HashFull(n: Node, ghost t: Tree, commit: bool, ghost top: bool, ghost full: bool)
      returns (collapsed: Rlp.Value, kept: Node)
      requires n.Full?
      requires Env() && Canon(t) && Within(h, u, t) && Repr(h, n, t, top)
      requires full ==> Avail(h, db, n, t, top)
      modifies this`db
      ensures Env() && Extends(old(db), db) && (!commit ==> db == old(db))
      ensures collapsed == NodeVal(h, t)
      ensures kept.Full? && kept.flags == n.flags
      ensures Repr(h, kept, t, top) && CachedBelow(h, kept, t)
      ensures full ==> Avail(h, db, kept, t, top)
      ensures full && commit ==> StoredSubs(h, db, t)
      decreases t, 1
    {
      hide Enc, Hashed, Canon, NodeVal, RefVal, RefVals, Within, Stored, StoredSubs, Avail, Repr, Extends;
      ghost var db0 := db;
      FullParts(h, db, n, t, top);
      CanonKids(t);
      LastRef(h, n.children[16], t.kids[16]);
      var refs, cs := HashKids(n.children, t, commit, full);
      var last := if n.children[16].Nil? then Rlp.Str([]) else Rlp.Str(n.children[16].blob);
      RefsComplete(h, t, refs);
      collapsed, kept := Rlp.Lst(refs + [last]), Full(cs, n.flags);
      FullKept(h, db0, db, n, cs, t, top);
      if full && commit { FullStored(h, db, t); }
    }

    /** The sixteen nibble children, one after the other. */
    method HashKids(cs0: seq<Node>, ghost t: Tree, commit: bool, ghost full: bool)
      returns (refs: seq<Rlp.Value>, cs: seq<Node>)
      requires Env() && Within(h, u, t) && t.Branch? && KidsOk(t.kids)
      requires |cs0| == 17 && forall i :: 0 <= i < 17 ==> Repr(h, cs0[i], t.kids[i], false)
      requires full ==> KidsAvail(h, db, cs0, t.kids, 0, 17)
      modifies this`db
      ensures Env() && Extends(old(db), db) && (!commit ==> db == old(db))
      ensures |refs| == 16 && forall i :: 0 <= i < 16 ==> refs[i] == RefVal(h, t.kids[i])
      ensures |cs| == 17 && forall i :: 0 <= i < 17 ==> Repr(h, cs[i], t.kids[i], false)
      ensures forall i :: 0 <= i < 16 ==> Cached(h, cs[i], t.kids[i])
      ensures full ==> KidsAvail(h, db, cs, t.kids, 0, 17)
      ensures full && commit ==> KidsStored(h, db, t.kids, 16)
      decreases t, 0
    {
      hide Enc, Hashed, Canon, Avail, Stored, NodeVal;
      refs, cs := [], cs0;
      var i := 0;
      while i < 16
        invariant 0 <= i <= 16
        invariant Env() && Extends(old(db), db) && (!commit ==> db == old(db))
        invariant |refs| == i && forall j :: 0 <= j < i ==> refs[j] == RefVal(h, t.kids[j])
        invariant |cs| == 17 && forall j :: 0 <= j < 17 ==> Repr(h, cs[j], t.kids[j], false)
        invariant forall j :: 0 <= j < i ==> Cached(h, cs[j], t.kids[j])
        invariant full ==> KidsAvail(h, db, cs, t.kids, 0, 17)
        invariant full && commit ==> KidsStored(h, db, t.kids, i)
      {
        ghost var db1 := db;
        var ref := Rlp.Str([]);
        if cs[i].Nil? {
          LeafRef(h, [], 0);
          EmptyStored(h, db);
        } else {
          ReprInner(h, cs[i], t.kids[i]);
          var c;
          ref, c := HashNode(cs[i], t.kids[i], commit, false, full);
          if full {
            KidsAvailGrows(h, db1, db, cs, t.kids, 0, 17);
            if commit { KidsStoredGrows(h, db1, db, t.kids, i); }
          }
          cs := cs[i := c];
        }
        refs := refs + [ref];
        i := i + 1;
      }
    }

    /** The root hash; nothing is written. */
    method Hash() returns (d: Digest)
      requires Valid()
      modifies this`root, this`db
      ensures Valid() && db == old(db) && d == RootHash(h, tree)
      ensures Cached(h, root, tree)
      ensures old(Complete()) ==> Complete()
    {
      if root.Nil? {
        d := RootHash(h, Empty);
      } else {
        RootInner(h, root, tree);
        var ref, cached := HashNode(root, tree, false, true, Complete());
        root := cached;
        d := ref.bytes;
      }
    }

    /** The root hash, with every changed node written; old enough nodes are unloaded. */
    method Commit() returns (d: Digest)
      requires Valid()
      modifies this`root, this`db, this`cachegen
      ensures Valid() && Extends(old(db), db) && d == RootHash(h, tree) && Cached(h, root, tree)
      ensures cachegen == (old(cachegen) + 1) % 0x1_0000
      ensures old(Complete()) ==> Complete() && (Inner(tree) ==> StoredTop(h, db, tree))
    {
      if root.Nil? {
        d := RootHash(h, Empty);
      } else {
        RootInner(h, root, tree);
        var ref, cached := HashNode(root, tree, true, true, Complete());
        root := cached;
        d := ref.bytes;
      }
      cachegen := (cachegen + 1) % 0x1_0000;
    }

    constructor (h: Hasher, ghost u: iset<Blob>, db: Store)
      requires Universe(h, u) && Addressed(h, u, db)
      ensures this.h == h && this.u == u && this.db == db && fresh(this)
      ensures Valid() && tree == Empty && Complete()
    {
      this.h, this.u, this.db := h, u, db;
      root, tree, cachegen, cachelimit := Nil, Empty, 0, 0;
    }

    /** Opens the trie with the given root hash, which is the hash of `t`. */
    static method Open(h: Hasher, ghost u: iset<Blob>, db: Store, rootHash: Digest, ghost t: Tree)
      returns (trie: Trie, err: Option<Digest>)
      requires Universe(h, u) && Addressed(h, u, db) && Canon(t) && Within(h, u, t)
      requires if rootHash == seq(32, _ => 0) || rootHash == RootHash(h, Empty) then t == Empty
               else Inner(t) && rootHash == RootHash(h, t)
      ensures fresh(trie) && trie.h == h && trie.u == u && trie.db == db
      ensures err.None? ==> trie.Valid() && trie.tree == t && Cached(h, trie.root, t)
      ensures err.Some? ==> err == Some(rootHash) && rootHash !in db
      ensures t == Empty || StoredTop(h, db, t) ==> err == None && trie.Complete()
    {
      trie := new Trie(h, u, db);
      err := None;
      if rootHash != seq(32, _ => 0) && rootHash != RootHash(h, Empty) {
        var n;
        n, err := trie.ResolveHash(rootHash, t, true);
        if err.None? {
          trie.root, trie.tree := n, t;
        }
      }
    }
  }

  /** Hash of a whole trie; the empty trie hashes the empty string's encoding. */
  function RootHash(h: Hasher, t: Tree): Digest { h(Enc(h, t)) }

  lemma RootInner(h: Hasher, n: Node, t: Tree)
    requires Canon(t) && Repr(h, n, t, true) && !n.Nil?
    ensures Inner(t)
  {}

  // --- whole runs ---

  datatype Op = Write(update: Update) | Read(key: Blob) | HashNow | CommitNow

  /** The updates among the operations. */
  function Puts(ops: seq<Op>): seq<Update> {
    if ops == [] then []
    else
      var us, op := Puts(ops[..|ops| - 1]), ops[|ops| - 1];
      if op.Write? then us + [op.update] else us
  }

  /** The map a sequence of operations describes. */
  function Described(ops: seq<Op>): map<Blob, Blob> { Contents(Puts(ops)) }

  ghost predicate RunWithin(h: Hasher, u: iset<Blob>, ops: seq<Op>) {
    forall i :: 0 <= i <= |ops| ==> Within(h, u, Run(Puts(ops[..i])))
  }

  lemma PutsStep(ops: seq<Op>, i: nat)
    requires i < |ops|
    ensures ops[i].Write? ==> Run(Puts(ops[..i + 1])) == Apply(Run(Puts(ops[..i])), ops[i].update)
    ensures !ops[i].Write? ==> Puts(ops[..i + 1]) == Puts(ops[..i])
  {
    assert ops[..i + 1][..i] == ops[..i];
    if ops[i].Write? {
      var us := Puts(ops[..i]);
      assert (us + [ops[i].update])[..|us|] == us;
    }
  }

  /** Any mix of reads, writes, hashing and committing on a new trie: every read returns what
      the writes before it describe, no node is ever missing, and the final root hash is that
      of the described map, whatever was cached, unloaded and reloaded on the way. */
  method Play(h: Hasher, ghost u: iset<Blob>, limit: Uint16, ops: seq<Op>) returns (answers: seq<Option<Blob>>,
              d: Digest)
    requires Universe(h, u) && RunWithin(h, u, ops)
    ensures |answers| == |ops|
    ensures forall i :: 0 <= i < |ops| && ops[i].Read? ==>
      answers[i] == TreeDelete.Get(Described(ops[..i]), ops[i].key)
    ensures d == RootHash(h, Run(Puts(ops)))
  {
    hide Run, Puts, Repr, Avail, Within, Canon, Lookup, Enc, Universe, Addressed;
    var trie := new Trie(h, u, map[]);
    trie.cachelimit := limit;
    answers := [];
    var i := 0;
    PutsNone(ops);
    while i < |ops|
      invariant 0 <= i <= |ops| && |answers| == i
      invariant fresh(trie) && trie.h == h && trie.u == u
      invariant trie.Valid() && trie.Complete() && trie.tree == Run(Puts(ops[..i]))
      invariant forall j :: 0 <= j < i && ops[j].Read? ==>
        answers[j] == TreeDelete.Get(Described(ops[..j]), ops[j].key)
    {
      PutsStep(ops, i);
      assert Within(h, u, Run(Puts(ops[..i + 1])));
      var r: Option<Blob> := None;
      match ops[i] {
        case Write(up) =>
          var Put(k, v) := up;
          var err := trie.TryUpdate(k, v);
        case Read(key) =>
          RunSound(Puts(ops[..i]));
          var err;
          r, err := trie.TryGet(key);
        case HashNow =>
          var d' := trie.Hash();
        case CommitNow =>
          var d' := trie.Commit();
      }
      answers := answers + [r];
      i := i + 1;
    }
    assert ops[..i] == ops;
    d := trie.Hash();
  }

  lemma PutsNone(ops: seq<Op>)
    ensures Run(Puts(ops[..0])) == Empty
  {}

  /** Runs that describe the same map end with the same root hash. */
  lemma SameMapSameRoot(h: Hasher, a: seq<Op>, b: seq<Op>)
    requires Described(a) == Described(b)
    ensures RootHash(h, Run(Puts(a))) == RootHash(h, Run(Puts(b)))
  {
    HistoryIndependent(Puts(a), Puts(b));
  }

  lemma EmptyStored(h: Hasher, db: Store)
    ensures Stored(h, db, Empty)
  {}

  lemma LeafStored(h: Hasher, db: Store, t: Tree)
    requires !Inner(t)
    ensures Stored(h, db, t)
  {}

  lemma ReprInner(h: Hasher, n: Node, t: Tree)
    requires Canon(t) && Repr(h, n, t, false) && !n.Nil?
    ensures Inner(t)
  {}

  lemma CanonSub(t: Tree)
    requires Canon(t) && t.Ext?
    ensures ValidHex(t.key) && (t.sub.Leaf? || (Canon(t.sub) && Inner(t.sub)))
  {}

  lemma CanonKids(t: Tree)
    requires Canon(t) && t.Branch?
    ensures KidsOk(t.kids)
  {}

  lemma LastRef(h: Hasher, n: Node, t: Tree)
    requires LeafOk(t) && Repr(h, n, t, false)
    ensures n.Nil? ==> RefVal(h, t) == Rlp.Str([])
    ensures !n.Nil? ==> n.Value? && RefVal(h, t) == Rlp.Str(n.blob)
  {
    if !n.Nil? { LeafRef(h, t.value, 0); } else { LeafRef(h, [], 0); }
  }

  lemma RefsComplete(h: Hasher, t: Tree, refs: seq<Rlp.Value>)
    requires t.Branch? && |t.kids| == 17 && |refs| == 16 && forall i :: 0 <= i < 16 ==> refs[i] == RefVal(h, t.kids[i])
    ensures Rlp.Lst(refs + [RefVal(h, t.kids[16])]) == NodeVal(h, t)
  {
    hide RefVal;
    assert refs + [RefVal(h, t.kids[16])] == RefVals(h, t.kids);
  }

  lemma FullParts(h: Hasher, db: Store, n: Node, t: Tree, top: bool)
    requires n.Full? && Repr(h, n, t, top) && Canon(t)
    ensures t.Branch? && |n.children| == |t.kids| == 17
    ensures forall i :: 0 <= i < 17 ==> Repr(h, n.children[i], t.kids[i], false)
    ensures Avail(h, db, n, t, top) ==> KidsAvail(h, db, n.children, t.kids, 0, 17)
  {}

  /** A full node with its children hashed stands for the same tree. */
  lemma FullKept(h: Hasher, db0: Store, db: Store, n: Node, cs: seq<Node>, t: Tree, top: bool)
    requires n.Full? && Repr(h, n, t, top) && Extends(db0, db) && |cs| == |t.kids| == 17
    requires forall i :: 0 <= i < 17 ==> Repr(h, cs[i], t.kids[i], false)
    requires Canon(t) && forall i :: 0 <= i < 16 ==> Cached(h, cs[i], t.kids[i])
    ensures CachedBelow(h, Full(cs, n.flags), t)
    ensures Repr(h, Full(cs, n.flags), t, top)
    ensures Avail(h, db0, n, t, top) && KidsAvail(h, db, cs, t.kids, 0, 17) ==> Avail(h, db, Full(cs, n.flags), t, top)
  {
    if StoredTop(h, db0, t) { StoredSubsGrows(h, db0, db, t); }
  }

  lemma FullStored(h: Hasher, db: Store, t: Tree)
    requires t.Branch? && |t.kids| == 17 && LeafOk(t.kids[16]) && KidsStored(h, db, t.kids, 16)
    ensures StoredSubs(h, db, t)
  {
    LeafStored(h, db, t.kids[16]);
  }

  /** A branch with two children stands for the fork of their trees. */
  lemma ForkRepr(h: Hasher, db: Store, i: Nibble, a: Node, s: Tree, j: Nibble, b: Node, t: Tree, f: Flag)
    requires i != j && Repr(h, a, s, false) && Repr(h, b, t, false) && f.hash.None? && f.dirty
    ensures var cs := seq(17, _ => Nil)[i := a][j := b];
      && Repr(h, Full(cs, f), Fork(i, s, j, t), false) && Repr(h, Full(cs, f), Fork(i, s, j, t), true)
      && (Avail(h, db, a, s, false) && Avail(h, db, b, t, false) ==>
            Avail(h, db, Full(cs, f), Fork(i, s, j, t), false) && Avail(h, db, Full(cs, f), Fork(i, s, j, t), true))
  {
    var cs := seq(17, _ => Nil)[i := a][j := b];
    var kids := Fork(i, s, j, t).kids;
    forall k | 0 <= k < 17 ensures Repr(h, cs[k], kids[k], false) {
      assert cs[k] == (if k == j then b else if k == i then a else Nil);
    }
    if Avail(h, db, a, s, false) && Avail(h, db, b, t, false) {
      forall k | 0 <= k < 17 ensures Avail(h, db, cs[k], kids[k], false) {
        assert cs[k] == (if k == j then b else if k == i then a else Nil);
      }
    }
  }

  /** The children of a full node after a deletion below one of them. */
  lemma AfterDelete(h: Hasher, u: iset<Blob>, t: Tree, key: Key)
    requires Canon(t) && t.Branch? && Terminated(key) && Within(h, u, t)
    ensures |t.kids| == 17
    ensures var kids := t.kids[key[0] := TreeDelete.Delete(t.kids[key[0]], key[1..])];
      KidsOk(kids) && exists i :: 0 <= i < 17 && !kids[i].Empty?
  {
    CanonKidAt(t, key);
    DeleteCanon(t.kids[key[0]], key[1..]);
    var a, b :| 0 <= a < b < 17 && t.kids[a] != Empty && t.kids[b] != Empty;
    var kids := t.kids[key[0] := TreeDelete.Delete(t.kids[key[0]], key[1..])];
    assert !kids[if key[0] == a then b else a].Empty?;
    LastNibble(key);
  }

  /** Replacing child `i` of a full node by a node for `kid`, with a fresh flag. */
  lemma ReplaceKid(h: Hasher, db: Store, n: Node, t: Tree, top: bool, i: Nibble, c: Node, kid: Tree, f: Flag)
    requires n.Full? && Repr(h, n, t, top) && |n.children| == 17 && Repr(h, c, kid, false)
    requires f.hash == None && f.dirty
    ensures Repr(h, Full(n.children[i := c], f), Branch(t.kids[i := kid]), top)
    ensures Avail(h, db, n, t, top) && Avail(h, db, c, kid, false) ==>
      Avail(h, db, Full(n.children[i := c], f), Branch(t.kids[i := kid]), top)
  {}

  lemma CanonKidAt(t: Tree, key: Key)
    requires Canon(t) && t.Branch? && Terminated(key)
    ensures |t.kids| == 17 && Suffix(key[1..]) && CanonAt(t.kids[key[0]], key[1..])
  {
    LastNibble(key);
  }

  lemma CanonSubAt(t: Tree, key: Key)
    requires Canon(t) && t.Ext? && t.key <= key && Terminated(key)
    ensures Suffix(key[|t.key|..]) && CanonAt(t.sub, key[|t.key|..]) && t.key != []
    ensures key[|t.key|..] == [] <==> t.key == key
    ensures t.key == key ==> t.sub.Leaf?
  {
    KeyRest(key, t.key);
  }

  lemma NotLeaf(t: Tree)
    requires Canon(t)
    ensures !t.Leaf?
  {}

  lemma CanonKey(t: Tree)
    requires Canon(t) && t.Ext?
    ensures ValidHex(t.key)
  {}

  /** A key that parts from a short node's key is absent. */
  lemma PartedAbsent(t: Tree, key: Key)
    requires t.Ext? && PrefixLen(key, t.key) < |t.key|
    ensures Lookup(t, key) == None
  {
    var m := PrefixLen(key, t.key);
    assert m < |key| ==> key[m] != t.key[m];
  }
}
