/** Tries opened over the node cache: New (fast/trie.go) resolving nodes through Database.Node
    (fast/database.go). */
module CachedTrie {
  import opened Bytes
  import opened Tree
  import opened Node
  import opened Memory
  import opened Trie
  import opened Closure
  import D = Database

  /** Once the root of a tree can be read through the cache, so can the whole tree. */
  lemma ReadableWhole(w: D.World, m: D.Nodes, disk: Store, h: Hasher, u: iset<Blob>, t: Tree)
    requires D.Inv(w, m, disk, {}) && Universe(h, u) && forall d, b :: w.good(d, b) ==> b in u && h(b) == d
    requires Canon(t) && Inner(t) && Within(h, u, t) && h(Enc(h, t)) in D.Reads(m, disk)
    ensures Addressed(h, u, D.Reads(m, disk)) && StoredTop(h, D.Reads(m, disk), t)
  {
    hide D.Inv, D.Reads, Enc, Untainted, RefsStored, Canon, Within, Universe;
    D.ReadsClosed(w, m, disk);
    NoneTainted(h, t);
    ClosedHoldsTree(h, u, D.Reads(m, disk), {}, t);
  }

  /** A referenced root opens as the trie it is the hash of, and no node of it is missing,
      whatever else has been dereferenced or written out. */
  method OpenReferenced(db: D.Database, h: Hasher, ghost u: iset<Blob>, root: Digest, ghost t: Tree)
    returns (trie: Trie, err: Option<Digest>)
    requires db.Valid() && root in db.nodes[Zero()].children
    requires Universe(h, u) && forall d, b :: db.w.good(d, b) ==> b in u && h(b) == d
    requires Canon(t) && Inner(t) && Within(h, u, t) && root == RootHash(h, t) && root != RootHash(h, Empty)
    ensures err == None && fresh(trie) && trie.Valid() && trie.tree == t && trie.Complete()
    ensures forall d :: d in trie.db && d != Zero() ==> db.Node(d) == Some(trie.db[d])
  {
    hide D.Inv, D.Reads, Enc, Canon, Within, Universe, Addressed, StoredTop;
    RootReadable(db.w, db.nodes, db.disk, root);
    ReadableWhole(db.w, db.nodes, db.disk, h, u, t);
    assert root != Zero() && Zero() == seq(32, _ => 0);
    trie, err := Trie.Open(h, u, D.Reads(db.nodes, db.disk), root, t);
  }

  lemma RootReadable(w: D.World, m: D.Nodes, disk: Store, root: Digest)
    requires D.Inv(w, m, disk, {}) && root in m[Zero()].children
    ensures root in D.Reads(m, disk) && root != Zero()
  {
    D.RefsIn(m, Zero(), root);
  }
}
