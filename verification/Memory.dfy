/** Which in-memory node stands for which tree: partially unloaded nodes, cached hashes,
    and what has to be in the store. */
module Memory {
  import opened Bytes
  import opened Tree
  import opened Node

  type Store = map<Digest, Blob>

  /** The blobs of one run: bounded in size, and without collisions among themselves. */
  ghost predicate Universe(h: Hasher, u: iset<Blob>) {
    CollisionFree(h, u) && forall b :: b in u ==> |b| < TWO64
  }

  /** Content addressed: every blob is stored under its own digest. */
  ghost predicate Addressed(h: Hasher, u: iset<Blob>, db: Store) {
    forall d :: d in db ==> db[d] in u && h(db[d]) == d
  }

  /** The stored form of every inner node of the tree is one of the run's blobs. */
  ghost predicate Within(h: Hasher, u: iset<Blob>, t: Tree)
    decreases t
  {
    match t
    case Ext(_, s) => Enc(h, t) in u && Within(h, u, s)
    case Branch(kids) => Enc(h, t) in u && forall i :: 0 <= i < |kids| ==> Within(h, u, kids[i])
    case _ => true
  }

  /** A cached hash is the hash of the node's current content. Below 32 bytes only the root
      has one, since such a node is embedded everywhere else. */
  ghost predicate FlagOk(h: Hasher, f: Flag, t: Tree, root: bool) {
    f.hash.Some? ==> f.hash.value == h(Enc(h, t)) && (root || Hashed(h, t))
  }

  /** Every node in memory at or below `n` that is stored under its hash carries the hash. */
  ghost predicate Cached(h: Hasher, n: Node, t: Tree)
    decreases n, 1
  {
    ((n.Short? || n.Full?) && Hashed(h, t) ==> n.flags.hash.Some?) && CachedBelow(h, n, t)
  }

  ghost predicate CachedBelow(h: Hasher, n: Node, t: Tree)
    decreases n, 0
  {
    match n
    case Short(_, c, _) => t.Ext? && Cached(h, c, t.sub)
    case Full(cs, _) => t.Branch? && |cs| == |t.kids| && forall i :: 0 <= i < |cs| ==> Cached(h, cs[i], t.kids[i])
    case _ => true
  }

  /** Node `n` stands for tree `t`. Below a node with a hash no hash is missing. */
  ghost predicate Repr(h: Hasher, n: Node, t: Tree, root: bool)
    decreases n
  {
    match n
    case Nil => t.Empty?
    case Value(v) => t == Leaf(v)
    case Short(k, c, f) =>
      && t.Ext? && t.key == k && Repr(h, c, t.sub, false) && FlagOk(h, f, t, root)
      && (f.hash.Some? ==> CachedBelow(h, n, t))
    case Full(cs, f) =>
      && t.Branch? && |cs| == |t.kids| && FlagOk(h, f, t, root)
      && (forall i :: 0 <= i < |cs| ==> Repr(h, cs[i], t.kids[i], false))
      && (f.hash.Some? ==> CachedBelow(h, n, t))
    case HashRef(d) => Inner(t) && d == h(Enc(h, t)) && (root || Hashed(h, t))
  }

  /** Everything below `t` that is referenced by digest is in the store. */
  ghost predicate Stored(h: Hasher, db: Store, t: Tree)
    decreases t, 1
  {
    (Hashed(h, t) ==> h(Enc(h, t)) in db) && StoredSubs(h, db, t)
  }

  ghost predicate StoredSubs(h: Hasher, db: Store, t: Tree)
    decreases t, 0
  {
    match t
    case Ext(_, s) => Stored(h, db, s)
    case Branch(kids) => forall i :: 0 <= i < |kids| ==> Stored(h, db, kids[i])
    case _ => true
  }

  /** The node itself and everything below it can be loaded. */
  ghost predicate StoredTop(h: Hasher, db: Store, t: Tree) {
    Inner(t) && h(Enc(h, t)) in db && StoredSubs(h, db, t)
  }

  /** Nothing the node refers to is missing: references resolve, and a node that is not dirty
      is in the store or embedded in one that is. */
  ghost predicate Avail(h: Hasher, db: Store, n: Node, t: Tree, root: bool)
    decreases n
  {
    match n
    case HashRef(_) => StoredTop(h, db, t)
    case Short(_, c, f) =>
      && (!f.dirty ==> StoredTop(h, db, t) || (!root && !Hashed(h, t)))
      && t.Ext? && Avail(h, db, c, t.sub, false)
    case Full(cs, f) =>
      && (!f.dirty ==> StoredTop(h, db, t) || (!root && !Hashed(h, t)))
      && t.Branch? && |cs| == |t.kids| && (forall i :: 0 <= i < |cs| ==> Avail(h, db, cs[i], t.kids[i], false))
    case _ => true
  }

  ghost predicate Extends(a: Store, b: Store) { forall d :: d in a ==> d in b && b[d] == a[d] }

  // --- growing the store ---

  lemma {:induction false} StoredGrows(h: Hasher, a: Store, b: Store, t: Tree)
    requires Extends(a, b) && Stored(h, a, t)
    ensures Stored(h, b, t)
    decreases t, 1
  {
    StoredSubsGrows(h, a, b, t);
  }

  lemma {:induction false} StoredSubsGrows(h: Hasher, a: Store, b: Store, t: Tree)
    requires Extends(a, b) && StoredSubs(h, a, t)
    ensures StoredSubs(h, b, t)
    decreases t, 0
  {
    match t
    case Ext(_, s) => StoredGrows(h, a, b, s);
    case Branch(kids) => forall i | 0 <= i < |kids| ensures Stored(h, b, kids[i]) { StoredGrows(h, a, b, kids[i]); }
    case _ =>
  }

  lemma {:induction false} AvailGrows(h: Hasher, a: Store, b: Store, n: Node, t: Tree, root: bool)
    requires Extends(a, b) && Avail(h, a, n, t, root)
    ensures Avail(h, b, n, t, root)
    decreases n
  {
    if StoredSubs(h, a, t) { StoredSubsGrows(h, a, b, t); }
    match n
    case Short(_, c, _) => AvailGrows(h, a, b, c, t.sub, false);
    case Full(cs, _) =>
      forall i | 0 <= i < |cs| ensures Avail(h, b, cs[i], t.kids[i], false) {
        AvailGrows(h, a, b, cs[i], t.kids[i], false);
      }
    case _ =>
  }

  // --- loading ---

  /** A loaded node and what is embedded in it carry all the hashes they should. */
  lemma {:induction false} LoadedCached(h: Hasher, t: Tree, hash: Option<Digest>, gen: Uint16)
    ensures CachedBelow(h, Loaded(h, t, hash, gen), t)
    ensures hash.Some? || !Hashed(h, t) ==> Cached(h, Loaded(h, t, hash, gen), t)
    decreases t, 0
  {
    hide Enc;
    match t
    case Ext(_, s) => LoadedRefCached(h, s, gen);
    case Branch(kids) =>
      forall i | 0 <= i < |kids| ensures Cached(h, LoadedKids(h, kids, gen)[i], kids[i]) {
        LoadedRefCached(h, kids[i], gen);
      }
    case _ =>
  }

  lemma {:induction false} LoadedRefCached(h: Hasher, t: Tree, gen: Uint16)
    ensures Cached(h, LoadedRef(h, t, gen), t)
    decreases t, 1
  {
    hide Enc;
    if !Hashed(h, t) { LoadedCached(h, t, None, gen); }
  }

  lemma {:induction false} LoadedRepr(h: Hasher, t: Tree, hash: Option<Digest>, gen: Uint16, root: bool)
    requires FlagOk(h, Flag(hash, gen, false), t, root)
    ensures Repr(h, Loaded(h, t, hash, gen), t, root)
    decreases t, 0
  {
    LoadedCached(h, t, hash, gen);
    match t
    case Ext(_, s) => LoadedRefRepr(h, s, gen);
    case Branch(kids) =>
      forall i | 0 <= i < |kids| ensures Repr(h, LoadedKids(h, kids, gen)[i], kids[i], false) {
        LoadedRefRepr(h, kids[i], gen);
      }
    case _ =>
  }

  lemma {:induction false} LoadedRefRepr(h: Hasher, t: Tree, gen: Uint16)
    ensures Repr(h, LoadedRef(h, t, gen), t, false)
    decreases t, 1
  {
    if !Hashed(h, t) { LoadedRepr(h, t, None, gen, false); }
  }

  lemma {:induction false} LoadedAvail(h: Hasher, db: Store, t: Tree, hash: Option<Digest>, gen: Uint16, root: bool)
    requires StoredSubs(h, db, t) && (StoredTop(h, db, t) || (!root && !Hashed(h, t)))
    ensures Avail(h, db, Loaded(h, t, hash, gen), t, root)
    decreases t, 0
  {
    match t
    case Ext(_, s) => LoadedRefAvail(h, db, s, gen);
    case Branch(kids) =>
      forall i | 0 <= i < |kids| ensures Avail(h, db, LoadedKids(h, kids, gen)[i], kids[i], false) {
        LoadedRefAvail(h, db, kids[i], gen);
      }
    case _ =>
  }

  lemma {:induction false} LoadedRefAvail(h: Hasher, db: Store, t: Tree, gen: Uint16)
    requires Stored(h, db, t)
    ensures Avail(h, db, LoadedRef(h, t, gen), t, false)
    decreases t, 1
  {
    if !Hashed(h, t) { LoadedAvail(h, db, t, None, gen, false); }
  }

  /** What the store returns for the digest of a tree of the run is that tree's stored form. */
  lemma Fetched(h: Hasher, u: iset<Blob>, db: Store, t: Tree)
    requires Universe(h, u) && Addressed(h, u, db) && Within(h, u, t) && Inner(t) && h(Enc(h, t)) in db
    ensures db[h(Enc(h, t))] == Enc(h, t) && |Enc(h, t)| < TWO64
  {
    assert Enc(h, t) in u;
  }

  /** Children `0..n` have been hashed: they still stand for the same trees, and nothing they
      need is missing; after a commit everything below them is in the store. */
  ghost predicate KidsAvail(h: Hasher, db: Store, cs: seq<Node>, kids: seq<Tree>, lo: nat, hi: nat) {
    hi <= |cs| && hi <= |kids| && forall j :: lo <= j < hi ==> Avail(h, db, cs[j], kids[j], false)
  }

  ghost predicate KidsStored(h: Hasher, db: Store, kids: seq<Tree>, n: nat) {
    n <= |kids| && forall j :: 0 <= j < n ==> Stored(h, db, kids[j])
  }

  lemma KidsAvailGrows(h: Hasher, a: Store, b: Store, cs: seq<Node>, kids: seq<Tree>, lo: nat, hi: nat)
    requires Extends(a, b) && KidsAvail(h, a, cs, kids, lo, hi)
    ensures KidsAvail(h, b, cs, kids, lo, hi)
  {
    forall j | lo <= j < hi ensures Avail(h, b, cs[j], kids[j], false) { AvailGrows(h, a, b, cs[j], kids[j], false); }
  }

  lemma KidsStoredGrows(h: Hasher, a: Store, b: Store, kids: seq<Tree>, n: nat)
    requires Extends(a, b) && KidsStored(h, a, kids, n)
    ensures KidsStored(h, b, kids, n)
  {
    forall j | 0 <= j < n ensures Stored(h, b, kids[j]) { StoredGrows(h, a, b, kids[j]); }
  }
}
