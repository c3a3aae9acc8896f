/** Proof stores keyed by the hash of their content (simple/nodeset.go), and the round trip
    from a proved key to a checked answer. */
module NodeSet {
  import opened Bytes
  import opened Hex
  import opened Tree
  import opened Node
  import opened Memory
  import opened Trie
  import opened Proof

  function Total(bs: seq<Blob>): nat { if bs == [] then 0 else Total(bs[..|bs| - 1]) + |bs[|bs| - 1]| }

  /** The blobs under some keys. */
  function BlobsOf(nodes: Store, order: seq<Digest>): (bs: seq<Blob>)
    ensures |bs| == |order| && forall i :: 0 <= i < |order| && order[i] in nodes ==> bs[i] == nodes[order[i]]
  {
    seq(|order|, i requires 0 <= i < |order| => if order[i] in nodes then nodes[order[i]] else [])
  }

  lemma OneMore(nodes: Store, order: seq<Digest>, key: Digest, value: Blob)
    requires key !in nodes && forall d :: d in order ==> d in nodes
    ensures BlobsOf(nodes[key := value], order + [key]) == BlobsOf(nodes, order) + [value]
    ensures Total(BlobsOf(nodes, order) + [value]) == Total(BlobsOf(nodes, order)) + |value|
  {
    var bs := BlobsOf(nodes, order);
    assert (bs + [value])[..|bs|] == bs;
    forall i | 0 <= i < |order| ensures order[i] in nodes { assert order[i] in order; }
  }

  class NodeSet {
    var nodes: Store
    var order: seq<Digest>
    var dataSize: nat

    /** `order` lists every key once, and the size counts every stored blob once. */
    ghost predicate Valid() reads this {
      && (forall d :: d in order <==> d in nodes)
      && (forall i, j :: 0 <= i < j < |order| ==> order[i] != order[j])
      && dataSize == Total(BlobsOf(nodes, order))
    }

    constructor ()
      ensures Valid() && nodes == map[] && order == []
    {
      nodes, order, dataSize := map[], [], 0;
    }

    /** The first blob under a key stays. */
    method Put(key: Digest, value: Blob)
      requires Valid()
      modifies this
      ensures Valid()
      ensures nodes == if key in old(nodes) then old(nodes) else old(nodes)[key := value]
      ensures order == if key in old(nodes) then old(order) else old(order) + [key]
    {
      hide BlobsOf, Total;
      if key in nodes { return; }
      OneMore(nodes, order, key, value);
      nodes := nodes[key := value];
      order := order + [key];
      dataSize := dataSize + |value|;
    }

    /** The blobs in the order they arrived. */
    method NodeList() returns (values: seq<Blob>)
      requires Valid()
      ensures values == BlobsOf(nodes, order)
    {
      values := [];
      var i := 0;
      while i < |order|
        invariant 0 <= i <= |order| && |values| == i
        invariant forall j :: 0 <= j < i ==> values[j] == nodes[order[j]]
      {
        values := values + [nodes[order[i]]];
        i := i + 1;
      }
    }
  }

  /** What storing a list of blobs under their hashes leaves behind. */
  function StoreAll(h: Hasher, list: seq<Blob>): Store {
    if list == [] then map[]
    else
      var m, b := StoreAll(h, list[..|list| - 1]), list[|list| - 1];
      if h(b) in m then m else m[h(b) := b]
  }

  method FromList(h: Hasher, list: seq<Blob>) returns (db: NodeSet)
    ensures fresh(db) && db.Valid() && db.nodes == StoreAll(h, list)
  {
    db := new NodeSet();
    var i := 0;
    while i < |list|
      invariant 0 <= i <= |list| && fresh(db) && db.Valid() && db.nodes == StoreAll(h, list[..i])
    {
      assert list[..i + 1][..i] == list[..i];
      db.Put(h(list[i]), list[i]);
      i := i + 1;
    }
    assert list[..i] == list;
  }

  /** Such a store is content addressed and holds a blob for every hash of the list. */
  lemma {:induction false} StoreAllSound(h: Hasher, u: iset<Blob>, list: seq<Blob>)
    requires forall b :: b in list ==> b in u
    ensures Addressed(h, u, StoreAll(h, list))
    ensures forall b :: b in list ==> h(b) in StoreAll(h, list)
  {
    if list != [] {
      var init := list[..|list| - 1];
      assert list == init + [list[|list| - 1]];
      StoreAllSound(h, u, init);
    }
  }

  lemma {:induction false} BlobsWithin(h: Hasher, u: iset<Blob>, ts: seq<Tree>)
    requires forall i :: 0 <= i < |ts| ==> Enc(h, ts[i]) in u
    ensures forall b :: b in Blobs(h, ts) ==> b in u
  {
    if ts != [] {
      BlobsWithin(h, u, ts[..|ts| - 1]);
      assert Enc(h, ts[|ts| - 1]) in u;
    }
  }

  lemma {:induction false} PathWithin(h: Hasher, u: iset<Blob>, t: Tree, key: Key)
    requires Within(h, u, t)
    ensures forall i :: 0 <= i < |PathNodes(t, key)| ==> Enc(h, PathNodes(t, key)[i]) in u
    decreases t
  {
    hide Enc;
    match t
    case Ext(k, s) =>
      if k <= key { PathWithin(h, u, s, key[|k|..]); }
    case Branch(kids) =>
      if key != [] && |kids| == 17 { PathWithin(h, u, kids[key[0]], key[1..]); }
    case _ =>
  }

  lemma CoversAll(h: Hasher, u: iset<Blob>, t: Tree, key: Key, db: Store)
    requires forall b :: b in ProofBlobs(h, t, key) ==> h(b) in db
    ensures Covers(h, db, PathNodes(t, key))
  {
    var ts := PathNodes(t, key);
    forall i | 0 <= i < |ts| && (i == 0 || Hashed(h, ts[i])) ensures h(Enc(h, ts[i])) in db {
      BlobsMember(h, ts, i);
    }
  }

  /** A proof stored by hash and checked against the root hash gives the trie's answer. */
  lemma ProofChecks(h: Hasher, u: iset<Blob>, t: Tree, key: Key, steps: nat)
    requires Universe(h, u) && Canon(t) && t != Empty && Within(h, u, t) && Terminated(key) && steps > |key|
    ensures Verify(RootHash(h, t), key, StoreAll(h, ProofBlobs(h, t, key)), steps) == Truth(t, key)
  {
    hide Canon, PathNodes, Blobs, Lookup, Verify, Within, Enc;
    var blobs := ProofBlobs(h, t, key);
    PathWithin(h, u, t, key);
    BlobsWithin(h, u, PathNodes(t, key));
    StoreAllSound(h, u, blobs);
    CoversAll(h, u, t, key, StoreAll(h, blobs));
    NonEmptyInner(t);
    VerifyComplete(h, u, t, key, StoreAll(h, blobs), steps);
  }

  lemma ProofList(h: Hasher, proof: seq<(Digest, Blob)>, list: seq<Blob>, blobs: seq<Blob>)
    requires Proves(h, proof, Skip(blobs, 0)) && |list| == |proof|
    requires forall i :: 0 <= i < |proof| ==> list[i] == proof[i].1
    ensures list == blobs
  {}

  /** The proof of a key, put into a store. */
  method ProofStore(trie: Trie, key: Blob) returns (db: NodeSet)
    requires trie.Valid() && trie.Complete() && trie.tree != Empty
    modifies trie`db, trie`root
    ensures trie.Valid() && trie.Complete() && trie.tree == old(trie.tree)
    ensures db.nodes == StoreAll(trie.h, ProofBlobs(trie.h, trie.tree, KeyHex(key)))
  {
    hide Canon, Within, PathNodes, Blobs, Lookup, Verify, StoreAll, Avail, Repr, Universe, Addressed, RootHash,
      ProofBlobs;
    var proof, err := Prove(trie, key, 0);
    var list := seq(|proof|, i requires 0 <= i < |proof| => proof[i].1);
    ProofList(trie.h, proof, list, ProofBlobs(trie.h, trie.tree, KeyHex(key)));
    db := FromList(trie.h, list);
  }

  /** Proving a key on a complete, non-empty trie and checking the result against its root hash
      gives the value stored under the key, or its absence. */
  method ProveAndVerify(trie: Trie, key: Blob) returns (a: Answer)
    requires trie.Valid() && trie.Complete() && trie.tree != Empty
    modifies trie`db, trie`root
    ensures a == Truth(trie.tree, KeyHex(key))
  {
    hide Canon, Within, PathNodes, Blobs, Lookup, Verify, StoreAll, Avail, Repr, Universe, Addressed, Truth, RootHash,
      ProofBlobs;
    KeyLength(key);
    var db := ProofStore(trie, key);
    var rootHash := trie.Hash();
    ProofChecks(trie.h, trie.u, trie.tree, KeyHex(key), 2 * |key| + 2);
    a := VerifyProof(rootHash, key, db.nodes, 2 * |key| + 2);
  }

  lemma KeyLength(key: Blob)
    ensures |KeyHex(key)| == 2 * |key| + 1
  {}

  lemma NonEmptyInner(t: Tree)
    requires Canon(t) && t != Empty
    ensures Inner(t)
  {}
}
