/** The reference-counted node cache between tries and disk (fast/database.go). */
module Database {
  import opened Bytes
  import opened Memory
  import opened Bags
  import opened Closure

  /** A cached node: `parents` counts the references to it, `children` holds its own. */
  datatype Cached = Cached(blob: Blob, parents: int, children: multiset<Digest>)

  type Nodes = map<Digest, Cached>

  // --- sums over the cache ---

  ghost function Bag(m: Nodes): map<Digest, multiset<Digest>> { map d | d in m :: m[d].children }

  /** All references held by cached nodes. */
  ghost function AllRefs(m: Nodes): multiset<Digest> { Total(Bag(m)) }

  lemma RefsPick(m: Nodes, d: Digest)
    requires d in m
    ensures AllRefs(m) == m[d].children + AllRefs(m - {d})
  {
    TotalPick(Bag(m), d);
    assert Bag(m) - {d} == Bag(m - {d});
  }

  lemma RefsPut(m: Nodes, d: Digest, n: Cached)
    ensures AllRefs(m[d := n]) == n.children + AllRefs(m - {d})
  {
    RefsPick(m[d := n], d);
    assert m[d := n] - {d} == m - {d};
  }

  lemma RefsSame(m: Nodes, d: Digest, n: Cached)
    requires d in m && n.children == m[d].children
    ensures AllRefs(m[d := n]) == AllRefs(m)
  {
    RefsPut(m, d, n);
    RefsPick(m, d);
  }

  lemma RefsIn(m: Nodes, p: Digest, c: Digest)
    requires p in m && c in m[p].children
    ensures AllRefs(m)[c] > 0
  {
    RefsPick(m, p);
  }

  lemma RefsOf(m: Nodes, c: Digest) returns (p: Digest)
    requires AllRefs(m)[c] > 0
    ensures p in m && c in m[p].children
  {
    if forall q :: q in m ==> c !in m[q].children { TotalNone(Bag(m), c); }
    p :| p in m && c in m[p].children;
  }

  /** What the cache occupies: 32 bytes and the blob for each node but the meta root. */
  ghost function Sizes(m: Nodes): map<Digest, nat> { map d | d in m && d != Zero() :: 32 + |m[d].blob| }

  ghost function Size(m: Nodes): nat { Sum(Sizes(m)) }

  lemma SizeRemove(m: Nodes, d: Digest)
    requires d in m && d != Zero()
    ensures Size(m - {d}) == Size(m) - 32 - |m[d].blob|
  {
    SumPick(Sizes(m), d);
    assert Sizes(m) - {d} == Sizes(m - {d});
  }

  lemma SizeAdd(m: Nodes, d: Digest, n: Cached)
    requires d !in m && d != Zero()
    ensures Size(m[d := n]) == Size(m) + 32 + |n.blob|
  {
    SizeRemove(m[d := n], d);
    assert m[d := n] - {d} == m;
  }

  lemma SizeSame(m: Nodes, d: Digest, n: Cached)
    requires d in m && n.blob == m[d].blob
    ensures Size(m[d := n]) == Size(m)
  {
    assert Sizes(m[d := n]) == Sizes(m);
  }

  // --- the invariant ---

  /** What a node refers to, given its hash, how high it stands above its leaves, and any property
      that every stored blob has under its hash. */
  datatype World = World(needs: Digest -> set<Digest>, rank: Digest -> nat, good: (Digest, Blob) -> bool) {
    ghost predicate Ok() {
      && (forall p, k :: k in needs(p) ==> rank(k) < rank(p) && k != Zero())
    }
  }

  /** References to a node that is not on disk are counted exactly. */
  ghost predicate Counted(m: Nodes, disk: Store) {
    forall c :: c in m && c != Zero() && c !in disk ==> m[c].parents == AllRefs(m)[c]
  }

  /** What is referenced is in memory or on disk. */
  ghost predicate Held(m: Nodes, disk: Store) {
    forall c :: AllRefs(m)[c] > 0 ==> c in m || c in disk
  }

  /** A node's references are on disk, or cached and booked as its children; the nodes in
      `open` are being built or taken down. */
  ghost predicate Kept(w: World, m: Nodes, disk: Store, open: set<Digest>) {
    forall p, k :: p in m && p != Zero() && p !in open && k in w.needs(p) ==>
      k in disk || (k in m && k in m[p].children)
  }

  ghost predicate DiskClosed(w: World, disk: Store) {
    forall p, k :: p in disk && k in w.needs(p) ==> k in disk
  }

  /** Children are references, booked once; the meta root may hold a root several times. */
  ghost predicate Booked(w: World, m: Nodes) {
    && Zero() in m && Zero() !in AllRefs(m)
    && forall p, c :: p in m && p != Zero() && c in m[p].children ==> c in w.needs(p) && m[p].children[c] == 1
  }

  /** No leak: only a node that was never referenced has no references. */
  ghost predicate NoLeak(m: Nodes, disk: Store, orphans: set<Digest>) {
    forall c :: c in m && c != Zero() && c !in disk && m[c].parents == 0 ==> c in orphans
  }

  /** The hash references in a blob are among the node's needs. */
  ghost predicate Fits(w: World, d: Digest, blob: Blob) { Kids(d, blob) <= w.needs(d) && w.good(d, blob) }

  ghost predicate Tied(w: World, m: Nodes, disk: Store) {
    && (forall d :: d in m && d != Zero() ==> Fits(w, d, m[d].blob))
    && (forall d :: d in disk ==> Fits(w, d, disk[d]))
  }

  lemma TiedKeeps(w: World, m: Nodes, m': Nodes, disk: Store)
    requires Tied(w, m, disk) && SameBlobs(m, m')
    ensures Tied(w, m', disk)
  {
    hide Fits;
  }

  lemma TiedWrote(w: World, m: Nodes, disk: Store, disk': Store)
    requires Tied(w, m, disk) && Wrote(m, disk, disk')
    ensures Tied(w, m, disk')
  {
    hide Fits;
  }

  ghost predicate Inv(w: World, m: Nodes, disk: Store, open: set<Digest>) {
    && w.Ok() && Counted(m, disk) && Held(m, disk) && Kept(w, m, disk, open) && DiskClosed(w, disk) && Booked(w, m)
    && Tied(w, m, disk)
  }

  lemma NeedOk(w: World, p: Digest, k: Digest)
    requires w.Ok() && k in w.needs(p)
    ensures w.rank(k) < w.rank(p) && k != Zero() && k != p
  {}

  // --- reachability ---

  ghost predicate Path(w: World, path: seq<Digest>) {
    path != [] && forall i :: 0 <= i < |path| - 1 ==> path[i + 1] in w.needs(path[i])
  }

  /** Everything reachable from a readable node is readable. */
  lemma {:induction false} PathReadable(w: World, m: Nodes, disk: Store, path: seq<Digest>)
    requires Inv(w, m, disk, {}) && Path(w, path) && (path[0] in m || path[0] in disk) && path[0] != Zero()
    ensures forall i :: 0 <= i < |path| ==> path[i] in m || path[i] in disk
    decreases |path|
  {
    if |path| > 1 {
      assert path[0 + 1] in w.needs(path[0]);
      var rest := path[1..];
      forall i | 0 <= i < |rest| - 1
        ensures rest[i + 1] in w.needs(rest[i])
      {
        assert path[i + 1 + 1] in w.needs(path[i + 1]);
      }
      assert rest[0] == path[0 + 1];
      NeedOk(w, path[0], path[1]);
      PathReadable(w, m, disk, rest);
      forall i | 0 <= i < |path| ensures path[i] in m || path[i] in disk {
        if i > 0 { assert path[i] == rest[i - 1]; }
      }
    }
  }

  /** Cache safety: whatever a still referenced root reaches is readable. */
  lemma ReferencedReadable(w: World, m: Nodes, disk: Store, root: Digest, path: seq<Digest>, i: nat)
    requires Inv(w, m, disk, {}) && root in m[Zero()].children && Path(w, path) && path[0] == root && i < |path|
    ensures path[i] in m || path[i] in disk
  {
    RefsIn(m, Zero(), root);
    PathReadable(w, m, disk, path);
  }

  // --- how each change keeps it ---

  lemma InsertOk(w: World, m: Nodes, disk: Store, p: Digest, n: Cached)
    requires Inv(w, m, disk, {}) && p !in m && n.parents == 0 && n.children == multiset{} && Fits(w, p, n.blob)
    ensures Inv(w, m[p := n], disk, {p})
  {
    hide AllRefs, DiskClosed, Counted, Held, Booked, Fits;
    RefsPut(m, p, n);
    assert m - {p} == m;
    var m' := m[p := n];
    assert AllRefs(m') == AllRefs(m);
    InsertCounted(m, disk, p, n);
    InsertBooked(w, m, p, n);
  }

  lemma InsertCounted(m: Nodes, disk: Store, p: Digest, n: Cached)
    requires Counted(m, disk) && Held(m, disk) && p !in m && n.parents == 0 && AllRefs(m[p := n]) == AllRefs(m)
    ensures Counted(m[p := n], disk) && Held(m[p := n], disk)
  {
    hide AllRefs;
  }

  lemma InsertBooked(w: World, m: Nodes, p: Digest, n: Cached)
    requires Booked(w, m) && p !in m && n.children == multiset{} && AllRefs(m[p := n]) == AllRefs(m)
    ensures Booked(w, m[p := n])
  {
    hide AllRefs;
  }

  /** A new reference from `p` to `c`. */
  function Linked(m: Nodes, c: Digest, p: Digest): Nodes
    requires c in m && p in m
  {
    var m1 := m[c := m[c].(parents := m[c].parents + 1)];
    m1[p := m1[p].(children := m1[p].children + multiset{c})]
  }

  lemma LinkedRefs(m: Nodes, c: Digest, p: Digest)
    requires c in m && p in m && c != p
    ensures AllRefs(Linked(m, c, p)) == AllRefs(m) + multiset{c} && Size(Linked(m, c, p)) == Size(m)
  {
    var m1 := m[c := m[c].(parents := m[c].parents + 1)];
    RefsSame(m, c, m1[c]);
    RefsPick(m1, p);
    RefsPut(m1, p, Linked(m, c, p)[p]);
    SizeSame(m, c, m1[c]);
    SizeSame(m1, p, Linked(m, c, p)[p]);
  }

  lemma LinkOk(w: World, m: Nodes, disk: Store, open: set<Digest>, c: Digest, p: Digest)
    requires Inv(w, m, disk, open) && c in m && p in m && c != Zero()
    requires p != Zero() ==> c in w.needs(p) && c !in m[p].children
    ensures Inv(w, Linked(m, c, p), disk, open)
  {
    hide AllRefs, DiskClosed, Counted, Held, Kept, Booked, Tied;
    if p != Zero() { NeedOk(w, p, c); }
    LinkedRefs(m, c, p);
    var m' := Linked(m, c, p);
    assert m'.Keys == m.Keys;
    LinkCounted(m, disk, c, p);
    LinkHeld(m, m', disk, c);
    KeptGrows(w, m, m', disk, open);
    LinkBooked(w, m, c, p);
    LinkTied(w, m, disk, c, p);
  }

  lemma LinkTied(w: World, m: Nodes, disk: Store, c: Digest, p: Digest)
    requires Tied(w, m, disk) && c in m && p in m
    ensures Tied(w, Linked(m, c, p), disk)
  {
    hide Tied;
    TiedKeeps(w, m, Linked(m, c, p), disk);
  }

  lemma UnlinkTied(w: World, m: Nodes, disk: Store, c: Digest, p: Digest)
    requires Tied(w, m, disk) && p in m
    ensures Tied(w, Unlinked(m, c, p), disk)
  {
    hide Tied;
    TiedKeeps(w, m, Unlinked(m, c, p), disk);
  }

  lemma LinkCounted(m: Nodes, disk: Store, c: Digest, p: Digest)
    requires Counted(m, disk) && c in m && p in m && c != p && AllRefs(Linked(m, c, p)) == AllRefs(m) + multiset{c}
    ensures Counted(Linked(m, c, p), disk)
  {
    hide AllRefs;
  }

  lemma LinkHeld(m: Nodes, m': Nodes, disk: Store, c: Digest)
    requires Held(m, disk) && c in m && m'.Keys == m.Keys && AllRefs(m') == AllRefs(m) + multiset{c}
    ensures Held(m', disk)
  {
    hide AllRefs;
  }

  lemma KeptGrows(w: World, m: Nodes, m': Nodes, disk: Store, open: set<Digest>)
    requires Kept(w, m, disk, open) && m'.Keys == m.Keys
    requires forall q, k :: q in m && q != Zero() && q !in open && k in m[q].children ==> k in m'[q].children
    ensures Kept(w, m', disk, open)
  {}

  lemma LinkBooked(w: World, m: Nodes, c: Digest, p: Digest)
    requires Booked(w, m) && c in m && p in m && c != Zero() && c != p
    requires AllRefs(Linked(m, c, p)) == AllRefs(m) + multiset{c}
    requires p != Zero() ==> c in w.needs(p) && c !in m[p].children
    ensures Booked(w, Linked(m, c, p))
  {
    hide AllRefs;
    var m' := Linked(m, c, p);
    forall q, k | q in m' && q != Zero() && k in m'[q].children ensures k in w.needs(q) && m'[q].children[k] == 1 {
      if q == p && k != c { assert k in m[p].children; }
      if q != p { assert k in m[q].children; }
    }
  }

  lemma CloseOk(w: World, m: Nodes, disk: Store, p: Digest)
    requires Inv(w, m, disk, {p}) && forall k :: k in w.needs(p) ==> Attached(m, disk, k, p)
    ensures Inv(w, m, disk, {})
  {
    hide AllRefs, DiskClosed, Booked, Held, Counted, Tied;
  }

  /** One reference from `p` to `c` less; `c` is told if it is cached. */
  function Unlinked(m: Nodes, c: Digest, p: Digest): Nodes
    requires p in m
  {
    var m1 := m[p := m[p].(children := m[p].children - multiset{c})];
    if c in m then m1[c := m1[c].(parents := m1[c].parents - 1)] else m1
  }

  lemma UnlinkedRefs(m: Nodes, c: Digest, p: Digest)
    requires p in m && c != p && c in m[p].children
    ensures AllRefs(m) == AllRefs(Unlinked(m, c, p)) + multiset{c} && Size(Unlinked(m, c, p)) == Size(m)
  {
    var m1 := m[p := m[p].(children := m[p].children - multiset{c})];
    RefsPick(m, p);
    RefsPut(m, p, m1[p]);
    SizeSame(m, p, m1[p]);
    if c in m {
      RefsSame(m1, c, Unlinked(m, c, p)[c]);
      SizeSame(m1, c, Unlinked(m, c, p)[c]);
    }
  }

  lemma UnlinkOk(w: World, m: Nodes, disk: Store, open: set<Digest>, c: Digest, p: Digest)
    requires Inv(w, m, disk, open) && p in m && c in m[p].children && (p == Zero() || p in open)
    ensures Inv(w, Unlinked(m, c, p), disk, open) && c != p && c != Zero()
  {
    hide AllRefs, DiskClosed, Counted, Held, Kept, Booked, Tied;
    BookedIs(w, m, p, c);
    if p != Zero() { NeedOk(w, p, c); }
    UnlinkedRefs(m, c, p);
    var m' := Unlinked(m, c, p);
    assert m'.Keys == m.Keys;
    UnlinkCounted(m, disk, c, p);
    UnlinkHeld(m, m', disk, c);
    UnlinkBooked(w, m, c, p);
    KeptGrows(w, m, m', disk, open);
    UnlinkTied(w, m, disk, c, p);
  }

  lemma BookedIs(w: World, m: Nodes, p: Digest, c: Digest)
    requires Booked(w, m) && p in m && c in m[p].children
    ensures c != Zero() && (p != Zero() ==> c in w.needs(p) && m[p].children[c] == 1)
  {
    RefsIn(m, p, c);
  }

  lemma UnlinkBooked(w: World, m: Nodes, c: Digest, p: Digest)
    requires Booked(w, m) && p in m && c != p && AllRefs(m) == AllRefs(Unlinked(m, c, p)) + multiset{c}
    ensures Booked(w, Unlinked(m, c, p))
  {
    hide AllRefs;
    var m' := Unlinked(m, c, p);
    forall q, k | q in m' && q != Zero() && k in m'[q].children ensures k in w.needs(q) && m'[q].children[k] == 1 {
      assert k in m[q].children;
    }
  }

  lemma UnlinkCounted(m: Nodes, disk: Store, c: Digest, p: Digest)
    requires Counted(m, disk) && p in m && c != p && AllRefs(m) == AllRefs(Unlinked(m, c, p)) + multiset{c}
    ensures Counted(Unlinked(m, c, p), disk)
  {
    hide AllRefs;
  }

  lemma UnlinkHeld(m: Nodes, m': Nodes, disk: Store, c: Digest)
    requires Held(m, disk) && m'.Keys == m.Keys && AllRefs(m) == AllRefs(m') + multiset{c}
    ensures Held(m', disk)
  {
    hide AllRefs;
  }

  /** A node that is on disk, or that nothing refers to, can go once its children are gone. */
  lemma RemoveOk(w: World, m: Nodes, disk: Store, open: set<Digest>, d: Digest)
    requires Inv(w, m, disk, open) && d in m && d != Zero() && m[d].children == multiset{}
    requires d in disk || AllRefs(m)[d] == 0
    ensures Inv(w, m - {d}, disk, open - {d})
  {
    hide AllRefs, DiskClosed, Tied;
    RefsPick(m, d);
    assert AllRefs(m - {d}) == AllRefs(m);
    var m' := m - {d};
    TiedKeeps(w, m, m', disk);
    forall p, k | p in m' && p != Zero() && p !in open - {d} && k in w.needs(p)
      ensures k in disk || (k in m' && k in m'[p].children)
    {
      if k == d && k !in disk { RefsIn(m, p, k); }
    }
  }

  /** A node on disk can go with its children booked: these are on disk as well. */
  lemma EvictOk(w: World, m: Nodes, disk: Store, d: Digest)
    requires Inv(w, m, disk, {}) && d in m && d != Zero() && d in disk
    ensures Inv(w, m - {d}, disk, {})
  {
    hide AllRefs, Tied;
    RefsPick(m, d);
    assert forall c :: c in m[d].children ==> c in disk;
    var m' := m - {d};
    TiedKeeps(w, m, m', disk);
    assert forall c :: c !in disk ==> AllRefs(m')[c] == AllRefs(m)[c];
    assert forall c :: AllRefs(m')[c] <= AllRefs(m)[c];
  }

  lemma DiskGrows(w: World, m: Nodes, disk: Store, disk': Store, open: set<Digest>)
    requires Inv(w, m, disk, open) && Wrote(m, disk, disk') && DiskClosed(w, disk')
    ensures Inv(w, m, disk', open)
  {
    hide AllRefs, DiskClosed, Booked, Tied;
    TiedWrote(w, m, disk, disk');
  }

  lemma EmptyCache(w: World, disk: Store)
    requires w.Ok() && DiskClosed(w, disk) && forall d :: d in disk ==> Fits(w, d, disk[d])
    ensures var m := map[Zero() := Cached([], 0, multiset{})];
      Inv(w, m, disk, {}) && Size(m) == 0 && NoLeak(m, disk, {} + {})
  {
    hide DiskClosed, AllRefs, Fits;
    var m := map[Zero() := Cached([], 0, multiset{})];
    NoRefs();
    assert Sizes(m) == map[];
  }

  lemma NoRefs()
    ensures AllRefs(map[Zero() := Cached([], 0, multiset{})]) == multiset{}
  {
    var m := map[Zero() := Cached([], 0, multiset{})];
    RefsPick(m, Zero());
    assert m - {Zero()} == map[];
    assert Bag(map[]) == map[];
  }

  function Keys(b: multiset<Digest>): (s: set<Digest>)
    ensures forall d :: d in s <==> d in b
  {
    set d | d in b
  }

  lemma BookedOnce(w: World, m: Nodes, p: Digest)
    requires Booked(w, m) && p in m && p != Zero()
    ensures m[p].children == multiset(Keys(m[p].children))
    ensures forall k :: k in Keys(m[p].children) ==> k in w.needs(p)
  {
    forall k ensures m[p].children[k] == multiset(Keys(m[p].children))[k] {
      if k in m[p].children { BookedIs(w, m, p, k); }
    }
  }

  class Database {
    ghost const w: World
    var disk: Store
    var nodes: Nodes
    var nodesSize: int
    ghost var orphans: set<Digest>      // inserted and never referenced
    ghost var written: nat              // batches written to disk

    ghost predicate Sound(open: set<Digest>)
      reads this
    {
      Inv(w, nodes, disk, open) && nodesSize == Size(nodes) && NoLeak(nodes, disk, orphans + open)
    }

    ghost predicate Valid()
      reads this
    {
      Sound({})
    }

    constructor (disk: Store, ghost w: World)
      requires w.Ok() && DiskClosed(w, disk) && forall d :: d in disk ==> Fits(w, d, disk[d])
      ensures Valid() && this.disk == disk && this.w == w && nodes == map[Zero() := Cached([], 0, multiset{})]
    {
      hide Inv, NoLeak, Size, DiskClosed, Fits;
      this.disk, this.w := disk, w;
      nodes, nodesSize, orphans, written := map[Zero() := Cached([], 0, multiset{})], 0, {}, 0;
      new;
      EmptyCache(w, disk);
    }

    /** A node's blob, from memory or from disk. */
    function Node(d: Digest): (r: Option<Blob>)
      reads this
      ensures r.Some? <==> d in nodes || d in disk
      ensures d != Zero() ==> r == if d in Reads(nodes, disk) then Some(Reads(nodes, disk)[d]) else None
    {
      if d in nodes then Some(nodes[d].blob) else if d in disk then Some(disk[d]) else None
    }

    /** Adds a reference from `parent` to `child`; nothing happens if the child is not cached,
        or if it is booked already and the parent is not the meta root. */
    method Reference(child: Digest, parent: Digest, ghost open: set<Digest>)
      requires Sound(open) && parent in nodes && child != Zero() && (parent != Zero() ==> child in w.needs(parent))
      modifies this`nodes, this`orphans
      ensures Sound(open)
      ensures child !in old(nodes) || (parent != Zero() && child in old(nodes)[parent].children) ==>
        nodes == old(nodes) && orphans == old(orphans)
      ensures child in old(nodes) && (parent == Zero() || child !in old(nodes)[parent].children) ==>
        nodes == Linked(old(nodes), child, parent) && orphans == old(orphans) - {child}
    {
      hide AllRefs, DiskClosed, Counted, Held, Kept, Booked, Tied, Fits, Size;
      if child !in nodes { return; }
      if child in nodes[parent].children && parent != Zero() { return; }
      LinkOk(w, nodes, disk, open, child, parent);
      if parent != Zero() { NeedOk(w, parent, child); }
      LinkedRefs(nodes, child, parent);
      LinkLeak(nodes, disk, orphans, open, child, parent);
      nodes := nodes[child := nodes[child].(parents := nodes[child].parents + 1)];
      nodes := nodes[parent := nodes[parent].(children := nodes[parent].children + multiset{child})];
      orphans := orphans - {child};
    }

    /** Stores a node with its references, all of which have to be readable. */
    method Insert(hash: Digest, blob: Blob, refs: seq<Digest>)
      requires Valid() && hash != Zero() && (forall r :: r in refs <==> r in w.needs(hash))
      requires (forall r :: r in refs ==> r in nodes || r in disk) && Fits(w, hash, blob)
      modifies this`nodes, this`nodesSize, this`orphans
      ensures Valid() && nodes.Keys == old(nodes).Keys + {hash}
      ensures nodes[hash].blob == if hash in old(nodes) then old(nodes)[hash].blob else blob
      ensures forall d :: d in old(nodes) ==> nodes[d].blob == old(nodes)[d].blob
      ensures nodes[Zero()] == old(nodes)[Zero()]
      ensures Gained(old(nodes), nodes, hash)
    {
      hide AllRefs, DiskClosed, Counted, Held, Kept, Booked, Tied, Fits, Size, NoLeak, Linked;
      MetaRoot(w, nodes);
      ghost var open := {};
      if hash !in nodes {
        open := {hash};
        Create(hash, blob);
      }
      AttachAll(hash, refs, open);
      if open != {} {
        CloseOk(w, nodes, disk, hash);
      }
      CloseLeak(nodes, disk, orphans, open);
    }

    method AttachAll(hash: Digest, refs: seq<Digest>, ghost open: set<Digest>)
      requires Sound(open) && hash in nodes && hash != Zero()
      requires forall r :: r in refs ==> r in w.needs(hash) && (r in nodes || r in disk)
      modifies this`nodes, this`orphans
      ensures Sound(open) && Enriched(old(nodes), nodes, hash)
      ensures forall r :: r in refs ==> Attached(nodes, disk, r, hash)
      ensures hash in old(orphans) ==> hash in orphans
    {
      hide AllRefs, DiskClosed, Counted, Held, Kept, Booked, Tied, Fits, Size, NoLeak, Enriched, Attached, Inv;
      var i := 0;
      EnrichNone(nodes, hash);
      while i < |refs|
        invariant 0 <= i <= |refs| && Sound(open) && Enriched(old(nodes), nodes, hash)
        invariant (hash in old(orphans) ==> hash in orphans)
        invariant forall j :: 0 <= j < i ==> Attached(nodes, disk, refs[j], hash)
      {
        assert refs[i] in refs;
        ghost var m1 := nodes;
        EnrichKeys(old(nodes), nodes, hash);
        Attach(refs[i], hash, open);
        EnrichTrans(old(nodes), m1, nodes, hash);
        i := i + 1;
      }
    }

    method Attach(r: Digest, hash: Digest, ghost open: set<Digest>)
      requires Sound(open) && hash in nodes && hash != Zero() && r in w.needs(hash) && (r in nodes || r in disk)
      modifies this`nodes, this`orphans
      ensures Sound(open) && Enriched(old(nodes), nodes, hash) && Attached(nodes, disk, r, hash)
      ensures forall k :: Attached(old(nodes), disk, k, hash) ==> Attached(nodes, disk, k, hash)
      ensures hash in old(orphans) ==> hash in orphans
    {
      hide AllRefs, DiskClosed, Counted, Held, Kept, Booked, Tied, Fits, Size, NoLeak, Linked;
      NeedOk(w, hash, r);
      if r in nodes { LinkedIs(nodes, r, hash); }
      Reference(r, hash, open);
    }

    method Create(hash: Digest, blob: Blob)
      requires Valid() && hash != Zero() && hash !in nodes && Fits(w, hash, blob)
      modifies this`nodes, this`nodesSize, this`orphans
      ensures Sound({hash}) && nodes == old(nodes)[hash := Cached(blob, 0, multiset{})] && hash in orphans
    {
      hide AllRefs, DiskClosed, Counted, Held, Kept, Booked, Tied, Fits, Size;
      InsertOk(w, nodes, disk, hash, Cached(blob, 0, multiset{}));
      SizeAdd(nodes, hash, Cached(blob, 0, multiset{}));
      nodes := nodes[hash := Cached(blob, 0, multiset{})];
      nodesSize := nodesSize + 32 + |blob|;
      orphans := orphans + {hash};
    }

    /** Drops one reference from `parent` to `child`, and with the last one the child and all
        that only it referred to. */
    method Release(child: Digest, parent: Digest, ghost open: set<Digest>)
      requires Sound(open) && parent in nodes && child in nodes[parent].children && (parent == Zero() || parent in open)
      requires forall d :: d in open ==> w.rank(child) < w.rank(d)
      modifies this`nodes, this`nodesSize
      ensures Sound(open) && nodes.Keys <= old(nodes).Keys && parent in nodes
      ensures nodes[parent] == old(nodes)[parent].(children := old(nodes)[parent].children - multiset{child})
      ensures Spared(w, old(nodes), nodes, child, {parent}) && SameBlobs(old(nodes), nodes)
      ensures Dropped(old(nodes), nodes, {}) && SameKids(old(nodes), nodes, {parent})
      ensures child in old(nodes) && old(nodes)[child].parents == 1 ==> child !in nodes
      decreases w.rank(child), 1
    {
      hide AllRefs, DiskClosed, Counted, Held, Kept, Booked, Tied, Fits, Size, NoLeak, Unlinked, Spared, SameBlobs,
        Dropped, SameKids, Lost;
      Unreference(child, parent, open);
      ghost var m1 := nodes;
      SpareUnlink(w, old(nodes), child, parent);
      SpareNone(w, nodes, child);
      DropUnlink(old(nodes), child, parent);
      UnlinkedParents(old(nodes), child, parent);
      if child in nodes && nodes[child].parents == 0 {
        Tear(child, open);
        DropChild(old(nodes), m1, nodes, child);
        KidsTrans(old(nodes), m1, nodes, {parent}, {});
        assert {parent} + {} == {parent};
      }
      SpareRelease(w, old(nodes), m1, nodes, child, parent);
    }

    /** Books the reference off on both sides. */
    method Unreference(child: Digest, parent: Digest, ghost open: set<Digest>)
      requires Sound(open) && parent in nodes && child in nodes[parent].children && (parent == Zero() || parent in open)
      modifies this`nodes
      ensures Inv(w, nodes, disk, open) && nodesSize == Size(nodes) && NoLeak(nodes, disk, orphans + open + {child})
      ensures nodes == Unlinked(old(nodes), child, parent) && child != parent && child != Zero()
      ensures child !in nodes || nodes[child].parents != 0 ==> Sound(open)
    {
      hide AllRefs, DiskClosed, Counted, Held, Kept, Booked, Tied, Fits, Size, NoLeak;
      UnlinkOk(w, nodes, disk, open, child, parent);
      UnlinkedRefs(nodes, child, parent);
      UnlinkLeak(nodes, disk, orphans + open, child, parent);
      nodes := nodes[parent := nodes[parent].(children := nodes[parent].children - multiset{child})];
      if child !in nodes { return; }
      nodes := nodes[child := nodes[child].(parents := nodes[child].parents - 1)];
    }

    /** Takes down a node that is not referenced any more. */
    method Tear(child: Digest, ghost open: set<Digest>)
      requires Inv(w, nodes, disk, open) && nodesSize == Size(nodes) && NoLeak(nodes, disk, orphans + open + {child})
      requires child in nodes && child != Zero() && nodes[child].parents == 0
      requires forall d :: d in open ==> w.rank(child) < w.rank(d)
      modifies this`nodes, this`nodesSize
      ensures Sound(open) && nodes.Keys <= old(nodes).Keys - {child}
      ensures Spared(w, old(nodes), nodes, child, {}) && SameBlobs(old(nodes), nodes)
      ensures Dropped(old(nodes), nodes, {child}) && SameKids(old(nodes), nodes, {})
      decreases w.rank(child), 0
    {
      hide AllRefs, DiskClosed, Counted, Held, Kept, Booked, Tied, Fits, Size, NoLeak, Spared, SameBlobs, Dropped,
        SameKids;
      BookedOnce(w, nodes, child);
      OpenOk(w, nodes, disk, open, child);
      ghost var dying := open + {child};
      assert orphans + open + {child} == orphans + dying;
      var todo := Keys(nodes[child].children);
      SpareNone(w, nodes, child);
      DropNone(nodes);
      MoreOpen(nodes, nodes, child);
      while todo != {}
        invariant Sound(dying) && nodes.Keys <= old(nodes).Keys && child in nodes
        invariant nodes[child] == old(nodes)[child].(children := multiset(todo))
        invariant forall k :: k in todo ==> k in w.needs(child)
        invariant Spared(w, old(nodes), nodes, child, {}) && SameBlobs(old(nodes), nodes)
        invariant Dropped(old(nodes), nodes, {}) && SameKids(old(nodes), nodes, {child})
        decreases todo
      {
        var k :| k in todo;
        NeedOk(w, child, k);
        ghost var m1 := nodes;
        Release(k, child, dying);
        SpareStep(w, old(nodes), m1, nodes, child, k);
        DropTrans(old(nodes), m1, nodes, {});
        KidsTrans(old(nodes), m1, nodes, {child}, {child});
        assert {child} + {child} == {child};
        todo := todo - {k};
      }
      SpareLast(w, old(nodes), nodes, child);
      assert nodes[child].children == multiset{};
      DropLast(old(nodes), nodes, child);
      KidsWithout(old(nodes), nodes, child);
      Forget(child, open);
    }

    /** Removes a node that has no children left. */
    method Forget(child: Digest, ghost open: set<Digest>)
      requires Sound(open + {child}) && child in nodes && child != Zero() && nodes[child].parents == 0
      requires nodes[child].children == multiset{}
      modifies this`nodes, this`nodesSize
      ensures Sound(open) && nodes == old(nodes) - {child}
    {
      hide AllRefs, DiskClosed, Counted, Held, Kept, Booked, Tied, Fits, Size, NoLeak;
      ghost var dying := open + {child};
      Unreferenced(nodes, disk, child);
      RemoveOk(w, nodes, disk, dying, child);
      SizeRemove(nodes, child);
      RemoveLeak(nodes, disk, orphans, open, child);
      assert dying - {child} == open - {child};
      OpenLess(w, nodes - {child}, disk, open, child);
      nodesSize := nodesSize - 32 - |nodes[child].blob|;
      nodes := nodes - {child};
    }

    /** Drops a reference to a root. */
    method Dereference(root: Digest)
      requires Valid() && root in nodes[Zero()].children
      modifies this`nodes, this`nodesSize
      ensures Valid() && nodes.Keys <= old(nodes).Keys && Zero() in nodes
      ensures nodes[Zero()].children == old(nodes)[Zero()].children - multiset{root}
      ensures Dropped(old(nodes), nodes, {}) && SameKids(old(nodes), nodes, {Zero()})
    {
      hide AllRefs, DiskClosed, Counted, Held, Kept, Booked, Tied, Fits, Size, NoLeak;
      MetaRoot(w, nodes);
      Release(root, Zero(), {});
    }

    /** Hands a node to the batch after everything below it that is cached. Full batches are
        written out; the first `writes` writes succeed. */
    method CommitNode(hash: Digest, batch0: Store, size0: nat, writes0: nat, ghost saved0: set<Digest>)
      returns (batch: Store, size: nat, writes: nat, ok: bool, ghost saved: set<Digest>)
      requires Inv(w, nodes, disk, {}) && Pend(w, nodes, disk, batch0, saved0) && hash != Zero()
      modifies this`disk, this`written
      ensures Inv(w, nodes, disk, {}) && Pend(w, nodes, disk, batch, saved) && Wrote(nodes, old(disk), disk)
      ensures saved0 <= saved && (old(disk) + batch0).Keys <= (disk + batch).Keys
      ensures ok && hash in nodes ==> hash in saved && hash in disk + batch
      ensures written + writes == old(written) + writes0 && writes <= writes0 && (!ok ==> writes == 0)
      decreases w.rank(hash)
    {
      hide AllRefs, DiskClosed, Counted, Held, Kept, Booked, Tied, Fits, Pend, Wrote;
      WroteNone(nodes, disk);
      batch, size, writes, ok, saved := batch0, size0, writes0, true, saved0;
      if hash !in nodes { return; }
      BookedOnce(w, nodes, hash);
      var todo := Keys(nodes[hash].children);
      while todo != {}
        invariant Inv(w, nodes, disk, {}) && Pend(w, nodes, disk, batch, saved) && Wrote(nodes, old(disk), disk)
        invariant saved0 <= saved && (old(disk) + batch0).Keys <= (disk + batch).Keys && ok
        invariant written + writes == old(written) + writes0 && writes <= writes0
        invariant todo <= Keys(nodes[hash].children)
        invariant forall k :: k in nodes[hash].children && k !in todo && k in nodes ==> k in saved && k in disk + batch
        decreases todo
      {
        var k :| k in todo;
        NeedOk(w, hash, k);
        ghost var disk1 := disk;
        batch, size, writes, ok, saved := CommitNode(k, batch, size, writes, saved);
        WroteTrans(nodes, old(disk), disk1, disk);
        if !ok { return; }
        todo := todo - {k};
      }
      ghost var disk1 := disk;
      batch, size, writes, ok, saved := Put(hash, batch, size, writes, saved);
      WroteTrans(nodes, old(disk), disk1, disk);
    }

    /** Adds a node to the batch, and writes the batch if it is full. */
    method Put(hash: Digest, batch0: Store, size0: nat, writes0: nat, ghost saved0: set<Digest>)
      returns (batch: Store, size: nat, writes: nat, ok: bool, ghost saved: set<Digest>)
      requires Inv(w, nodes, disk, {}) && Pend(w, nodes, disk, batch0, saved0) && hash in nodes && hash != Zero()
      requires forall k :: k in nodes[hash].children && k in nodes ==> k in saved0 && k in disk + batch0
      modifies this`disk, this`written
      ensures Inv(w, nodes, disk, {}) && Pend(w, nodes, disk, batch, saved) && Wrote(nodes, old(disk), disk)
      ensures saved == saved0 + {hash} && (disk + batch).Keys == (old(disk) + batch0).Keys + {hash}
      ensures written + writes == old(written) + writes0 && writes <= writes0 && (!ok ==> writes == 0)
      ensures var full := size0 + |nodes[hash].blob| >= IDEAL_BATCH_SIZE;
        && (ok <==> !full || writes0 > 0)
        && (ok && full ==> batch == map[] && size == 0 && written == old(written) + 1)
        && (!full ==> batch == batch0[hash := nodes[hash].blob] && size == size0 + |nodes[hash].blob|)
        && (!full || !ok ==> disk == old(disk) && written == old(written))
    {
      hide AllRefs, DiskClosed, Counted, Held, Kept, Booked, Tied, Fits, Pend;
      PutOk(w, nodes, disk, batch0, saved0, hash);
      batch := batch0[hash := nodes[hash].blob];
      size, writes, ok := size0 + |nodes[hash].blob|, writes0, true;
      saved := saved0 + {hash};
      if size >= IDEAL_BATCH_SIZE {
        if writes == 0 {
          ok := false;
          return;
        }
        Write(batch, saved);
        batch, size, writes := map[], 0, writes - 1;
      }
    }

    /** Writes a batch out. */
    method Write(batch: Store, ghost saved: set<Digest>)
      requires Inv(w, nodes, disk, {}) && Pend(w, nodes, disk, batch, saved)
      modifies this`disk, this`written
      ensures Inv(w, nodes, disk, {}) && Pend(w, nodes, disk, map[], saved) && Wrote(nodes, old(disk), disk)
      ensures disk == old(disk) + batch && written == old(written) + 1
    {
      hide AllRefs, Counted, Held, Kept, Booked, Tied;
      DiskGrows(w, nodes, disk, disk + batch, {});
      assert (disk + batch) + map[] == disk + batch;
      disk, written := disk + batch, written + 1;
    }

    /** Drops a node that is on disk, with everything cached below it. */
    method Uncache(hash: Digest, ghost saved: set<Digest>)
      requires Valid() && hash != Zero() && Saved(nodes, disk, saved) && (hash in nodes ==> hash in saved)
      modifies this`nodes, this`nodesSize
      ensures Valid() && hash !in nodes && Shed(w, old(nodes), nodes, saved, hash) && Swept(old(nodes), nodes)
      decreases w.rank(hash)
    {
      hide AllRefs, DiskClosed, Counted, Held, Kept, Booked, Tied, Fits, Size, NoLeak, Saved, Shed, Swept;
      ShedNone(w, nodes, saved, hash);
      SweptNone(nodes);
      if hash !in nodes { return; }
      BookedOnce(w, nodes, hash);
      SavedIs(nodes, disk, saved, hash);
      var todo := Keys(nodes[hash].children);
      while todo != {}
        invariant Valid() && Shed(w, old(nodes), nodes, saved, hash) && hash in nodes && Swept(old(nodes), nodes)
        invariant forall k :: k in old(nodes)[hash].children ==> k in todo || k !in nodes
        invariant forall k :: k in todo ==> k in w.needs(hash) && (k in old(nodes) ==> k in saved)
        decreases todo
      {
        var k :| k in todo;
        NeedOk(w, hash, k);
        ghost var m1 := nodes;
        ShedSaved(w, old(nodes), nodes, saved, hash, disk);
        Uncache(k, saved);
        SweptTrans(w, old(nodes), m1, nodes, saved, hash, k);
        ShedTrans(w, old(nodes), m1, nodes, saved, hash, k);
        todo := todo - {k};
      }
      ShedLast(w, old(nodes), nodes, saved, hash);
      SweptLast(old(nodes), nodes, hash);
      Evict(hash);
    }

    method Evict(hash: Digest)
      requires Valid() && hash in nodes && hash != Zero() && hash in disk
      modifies this`nodes, this`nodesSize
      ensures Valid() && nodes == old(nodes) - {hash}
    {
      hide AllRefs, DiskClosed, Counted, Held, Kept, Booked, Tied, Fits, Size, NoLeak;
      EvictOk(w, nodes, disk, hash);
      SizeRemove(nodes, hash);
      EvictLeak(nodes, disk, orphans, hash);
      nodesSize := nodesSize - 32 - |nodes[hash].blob|;
      nodes := nodes - {hash};
    }

    /** Writes a node and everything below it to disk and drops it from memory. The first
        `writes` writes succeed. No read is affected. */
    method Commit(root: Digest, writes0: nat) returns (ok: bool)
      requires Valid() && root != Zero()
      modifies this`disk, this`written, this`nodes, this`nodesSize
      ensures Valid() && old(disk).Keys <= disk.Keys
      ensures forall d :: Node(d) == old(Node(d))
      ensures ok ==> root !in nodes && (old(Node(root)).Some? ==> root in disk)
      ensures !ok ==> nodes == old(nodes) && written == old(written) + writes0
      ensures ok ==> old(written) < written <= old(written) + writes0
      ensures ok ==>
        forall path :: Chain(old(nodes), path) && path[0] == root ==> forall i :: 0 <= i < |path| ==> path[i] !in nodes
    {
      hide AllRefs, DiskClosed, Counted, Held, Kept, Booked, Tied, Fits, Size, NoLeak, Saved, Pend;
      StartPend(w, nodes, disk);
      var batch, size, writes;
      ghost var saved;
      batch, size, writes, ok, saved := CommitNode(root, map[], 0, writes0, {});
      LeakLess(nodes, old(disk), disk, orphans + {});
      if !ok { return; }
      if writes == 0 { return false; }
      ghost var disk1 := disk;
      Write(batch, saved);
      WroteTrans(nodes, old(disk), disk1, disk);
      LeakLess(nodes, disk1, disk, orphans + {});
      EndPend(w, nodes, disk, saved);
      Uncache(root, saved);
      forall path | Chain(old(nodes), path) && path[0] == root
        ensures forall i :: 0 <= i < |path| ==> path[i] !in nodes
      {
        SweptPath(old(nodes), nodes, path);
      }
    }
  }

  lemma LinkLeak(m: Nodes, disk: Store, orphans: set<Digest>, open: set<Digest>, c: Digest, p: Digest)
    requires NoLeak(m, disk, orphans + open) && Counted(m, disk) && c in m && p in m && c != p
    ensures NoLeak(Linked(m, c, p), disk, (orphans - {c}) + open)
  {
    hide AllRefs;
  }

  lemma UnlinkedIs(m: Nodes, c: Digest, p: Digest)
    requires p in m && c != p
    ensures Unlinked(m, c, p).Keys == m.Keys
    ensures Unlinked(m, c, p)[p] == m[p].(children := m[p].children - multiset{c})
    ensures forall x :: x in m && x != p && x != c ==> Unlinked(m, c, p)[x] == m[x]
    ensures forall x :: x in m ==> Unlinked(m, c, p)[x].blob == m[x].blob
  {}

  lemma LinkedIs(m: Nodes, c: Digest, p: Digest)
    requires p in m && c in m && c != p
    ensures Linked(m, c, p).Keys == m.Keys && c in Linked(m, c, p)[p].children
    ensures forall x :: x in m && x != p && x != c ==> Linked(m, c, p)[x] == m[x]
    ensures Enriched(m, Linked(m, c, p), p) || c == Zero() || p == Zero()
  {}

  /** The same nodes, `p` with more children, each of which has as many parents more; the meta
      root as before. */
  ghost predicate Enriched(m: Nodes, m': Nodes, p: Digest) {
    && m'.Keys == m.Keys && p in m && (Zero() in m ==> m'[Zero()] == m[Zero()]) && m[p].children <= m'[p].children
    && (forall x :: x in m ==> m'[x].blob == m[x].blob && (x != p ==> m'[x].children == m[x].children))
    && (forall x :: x in m ==> m'[x].parents - m[x].parents == m'[p].children[x] - m[p].children[x])
  }

  function References(m: Nodes, p: Digest, c: Digest): nat { if p in m then m[p].children[c] else 0 }

  /** Only the node `p` has new references, and what it refers to now has as many parents more. */
  ghost predicate Gained(m: Nodes, m': Nodes, p: Digest) {
    forall x :: x in m ==>
      && x in m' && (x != p ==> m'[x].children == m[x].children)
      && m'[x].parents - m[x].parents == References(m', p, x) - References(m, p, x)
  }

  lemma EnrichNone(m: Nodes, p: Digest)
    requires p in m
    ensures Enriched(m, m, p)
  {}

  lemma EnrichKeys(m: Nodes, m': Nodes, p: Digest)
    requires Enriched(m, m', p)
    ensures m'.Keys == m.Keys
  {}

  lemma EnrichTrans(m: Nodes, m1: Nodes, m2: Nodes, p: Digest)
    requires Enriched(m, m1, p) && Enriched(m1, m2, p)
    ensures Enriched(m, m2, p)
  {}

  ghost predicate Attached(m: Nodes, disk: Store, k: Digest, p: Digest) {
    k in disk || (k in m && p in m && k in m[p].children)
  }

  lemma MetaRoot(w: World, m: Nodes)
    requires Booked(w, m)
    ensures Zero() in m
  {}

  lemma CloseLeak(m: Nodes, disk: Store, orphans: set<Digest>, open: set<Digest>)
    requires NoLeak(m, disk, orphans + open) && open <= orphans
    ensures NoLeak(m, disk, orphans + {})
  {
    assert orphans + open == orphans == orphans + {};
  }

  /** The nodes a release of `child` leaves alone. */
  ghost predicate Above(w: World, x: Digest, child: Digest) {
    x == Zero() || (x != child && w.rank(child) <= w.rank(x))
  }

  /** Everything above `child` but `except` is as before. */
  ghost predicate Spared(w: World, m: Nodes, m': Nodes, child: Digest, except: set<Digest>) {
    forall x :: x in m && x !in except && Above(w, x, child) ==> x in m' && m'[x] == m[x]
  }

  ghost predicate SameBlobs(m: Nodes, m': Nodes) { forall x :: x in m' ==> x in m && m'[x].blob == m[x].blob }

  // --- what a released reference takes with it ---

  /** The references to `x` that are gone. */
  ghost function Lost(m: Nodes, m': Nodes, x: Digest): int {
    var before: int, after: int := AllRefs(m)[x], AllRefs(m')[x];
    before - after
  }

  /** A node is dropped exactly when the references that are gone used up its count; otherwise its
      count falls by as many. `but` is left open. */
  ghost predicate Dropped(m: Nodes, m': Nodes, but: set<Digest>) {
    && (forall x :: Lost(m, m', x) >= 0)
    && (forall x :: x in m' ==> x in m)
    && (forall x :: x in m && x != Zero() && x !in but ==> Released(m, m', x))
  }

  ghost predicate Released(m: Nodes, m': Nodes, x: Digest)
    requires x in m
  {
    && (x in m' <==> !(1 <= m[x].parents <= Lost(m, m', x)))
    && (x in m' ==> m'[x].parents == m[x].parents - Lost(m, m', x))
  }

  /** Nodes that stay keep their references, apart from those in `but`. */
  ghost predicate SameKids(m: Nodes, m': Nodes, but: set<Digest>) {
    forall x :: x in m && x in m' && x !in but ==> m'[x].children == m[x].children
  }

  lemma DropNone(m: Nodes)
    ensures Dropped(m, m, {}) && SameKids(m, m, {})
  {
    hide AllRefs;
  }

  lemma DropTrans(m: Nodes, m1: Nodes, m2: Nodes, but: set<Digest>)
    requires Dropped(m, m1, {}) && Dropped(m1, m2, but)
    ensures Dropped(m, m2, but)
  {
    hide AllRefs;
    forall x ensures Lost(m, m2, x) == Lost(m, m1, x) + Lost(m1, m2, x) {}
    forall x | x in m && x != Zero() && x !in but ensures Released(m, m2, x) {
      assert Released(m, m1, x);
      if x in m1 { assert Released(m1, m2, x); }
    }
  }

  /** Booking a reference off leaves the child, unless that was its last one. */
  lemma DropUnlink(m: Nodes, c: Digest, p: Digest)
    requires p in m && c != p && c in m[p].children && c != Zero()
    ensures Dropped(m, Unlinked(m, c, p), {c}) && SameKids(m, Unlinked(m, c, p), {p})
    ensures Lost(m, Unlinked(m, c, p), c) == 1
    ensures c !in m || m[c].parents != 1 ==> Dropped(m, Unlinked(m, c, p), {})
  {
    hide AllRefs;
    UnlinkedRefs(m, c, p);
  }

  /** With the child gone too, the books are right again. */
  lemma DropChild(m: Nodes, m1: Nodes, m2: Nodes, c: Digest)
    requires Dropped(m, m1, {c}) && Dropped(m1, m2, {c}) && c !in m2
    requires c in m ==> m[c].parents == 1 && Lost(m, m1, c) == 1
    ensures Dropped(m, m2, {})
  {
    hide AllRefs;
    forall x ensures Lost(m, m2, x) == Lost(m, m1, x) + Lost(m1, m2, x) {}
    forall x | x in m && x != Zero() ensures Released(m, m2, x) {
      if x != c {
        assert Released(m, m1, x);
        if x in m1 { assert Released(m1, m2, x); }
      }
    }
  }

  /** A node without references can be taken away. */
  lemma DropLast(m: Nodes, m1: Nodes, c: Digest)
    requires Dropped(m, m1, {}) && c in m1 && m1[c].children == multiset{}
    ensures Dropped(m, m1 - {c}, {c})
  {
    hide AllRefs;
    RefsPick(m1, c);
    assert AllRefs(m1 - {c}) == AllRefs(m1);
    forall x ensures Lost(m, m1 - {c}, x) == Lost(m, m1, x) {}
    forall x | x in m && x != Zero() && x != c ensures Released(m, m1 - {c}, x) { assert Released(m, m1, x); }
  }

  lemma KidsTrans(m: Nodes, m1: Nodes, m2: Nodes, a: set<Digest>, b: set<Digest>)
    requires SameKids(m, m1, a) && SameKids(m1, m2, b) && forall x :: x in m2 ==> x in m1
    ensures SameKids(m, m2, a + b)
  {}

  lemma MoreOpen(m: Nodes, m1: Nodes, c: Digest)
    requires SameKids(m, m1, {})
    ensures SameKids(m, m1, {c})
  {}

  lemma UnlinkedParents(m: Nodes, c: Digest, p: Digest)
    requires p in m && c != p
    ensures c in Unlinked(m, c, p) <==> c in m
    ensures c in m ==> Unlinked(m, c, p)[c].parents == m[c].parents - 1
  {}

  lemma KidsWithout(m: Nodes, m1: Nodes, c: Digest)
    requires SameKids(m, m1, {c})
    ensures SameKids(m, m1 - {c}, {})
  {}

  lemma {:induction false} RefsSplit(m: Nodes, gone: set<Digest>)
    requires gone <= m.Keys
    ensures AllRefs(m) == AllRefs(m - gone) + AllRefs(m - (m.Keys - gone))
    decreases gone
  {
    hide AllRefs;
    if gone == {} {
      assert m - gone == m && m - m.Keys == map[];
      NoNodes();
    } else {
      var d :| d in gone;
      var rest := m - {d};
      RefsSplit(rest, gone - {d});
      assert rest - (gone - {d}) == m - gone;
      var part := m - (m.Keys - gone);
      assert part - {d} == rest - (rest.Keys - (gone - {d}));
      RefsPick(m, d);
      RefsPick(part, d);
    }
  }

  lemma NoNodes()
    ensures AllRefs(map[]) == multiset{}
  {
    assert Bag(map[]) == map[];
  }

  /** The references that are gone are the one that was released and those of the dropped nodes,
      each once. */
  lemma LostIs(m: Nodes, m': Nodes, c: Digest, p: Digest, x: Digest)
    requires Dropped(m, m', {}) && SameKids(m, m', {p}) && p in m && p in m' && c in m[p].children
    requires m'[p].children == m[p].children - multiset{c}
    ensures Lost(m, m', x) == (if x == c then 1 else 0) + AllRefs(m - m'.Keys)[x]
  {
    hide AllRefs, Dropped;
    assert forall y :: y in m' ==> y in m by { DroppedKeys(m, m'); }
    var gone := m.Keys - m'.Keys;
    var kept := m - gone;
    RefsSplit(m, gone);
    assert m - (m.Keys - gone) == m - m'.Keys;
    RefsPick(kept, p);
    RefsPick(m', p);
    SameRefs(kept - {p}, m' - {p});
  }

  lemma DroppedKeys(m: Nodes, m': Nodes)
    requires Dropped(m, m', {})
    ensures forall y :: y in m' ==> y in m
  {}

  lemma SameRefs(a: Nodes, b: Nodes)
    requires a.Keys == b.Keys && forall d :: d in a ==> a[d].children == b[d].children
    ensures AllRefs(a) == AllRefs(b)
  {
    assert Bag(a) == Bag(b);
  }

  lemma SpareNone(w: World, m: Nodes, child: Digest)
    ensures Spared(w, m, m, child, {}) && SameBlobs(m, m)
  {}

  lemma SpareStep(w: World, m: Nodes, m1: Nodes, m2: Nodes, child: Digest, k: Digest)
    requires Spared(w, m, m1, child, {}) && SameBlobs(m, m1) && Spared(w, m1, m2, k, {child}) && SameBlobs(m1, m2)
    requires w.rank(k) < w.rank(child) && child != Zero()
    ensures Spared(w, m, m2, child, {}) && SameBlobs(m, m2)
  {}

  lemma SpareUnlink(w: World, m: Nodes, c: Digest, p: Digest)
    requires p in m && c != p && c != Zero()
    ensures Spared(w, m, Unlinked(m, c, p), c, {p}) && SameBlobs(m, Unlinked(m, c, p))
    ensures Unlinked(m, c, p).Keys == m.Keys
    ensures Unlinked(m, c, p)[p] == m[p].(children := m[p].children - multiset{c})
  {
    UnlinkedIs(m, c, p);
  }

  lemma SpareRelease(w: World, m: Nodes, m1: Nodes, m2: Nodes, c: Digest, p: Digest)
    requires Spared(w, m, m1, c, {p}) && SameBlobs(m, m1) && Spared(w, m1, m2, c, {}) && SameBlobs(m1, m2)
    requires p in m1 && c != p && (p == Zero() || w.rank(c) < w.rank(p))
    ensures Spared(w, m, m2, c, {p}) && SameBlobs(m, m2) && p in m2 && m2[p] == m1[p]
  {}

  lemma SpareLast(w: World, m: Nodes, m': Nodes, child: Digest)
    requires Spared(w, m, m', child, {}) && SameBlobs(m, m') && child != Zero()
    ensures Spared(w, m, m' - {child}, child, {}) && SameBlobs(m, m' - {child})
  {}

  lemma UnlinkLeak(m: Nodes, disk: Store, orphans: set<Digest>, c: Digest, p: Digest)
    requires NoLeak(m, disk, orphans) && p in m && c != p
    ensures NoLeak(Unlinked(m, c, p), disk, orphans + {c})
    ensures c in m && Unlinked(m, c, p)[c].parents != 0 ==> NoLeak(Unlinked(m, c, p), disk, orphans)
    ensures c !in m ==> NoLeak(Unlinked(m, c, p), disk, orphans)
  {}

  lemma OpenOk(w: World, m: Nodes, disk: Store, open: set<Digest>, d: Digest)
    requires Inv(w, m, disk, open)
    ensures Inv(w, m, disk, open + {d})
  {
    hide AllRefs, DiskClosed, Counted, Held, Booked, Tied;
  }

  lemma OpenLess(w: World, m: Nodes, disk: Store, open: set<Digest>, d: Digest)
    requires Inv(w, m, disk, open - {d}) && d !in m
    ensures Inv(w, m, disk, open)
  {
    hide AllRefs, DiskClosed, Counted, Held, Booked, Tied;
  }

  lemma Unreferenced(m: Nodes, disk: Store, d: Digest)
    requires Counted(m, disk) && d in m && d != Zero() && m[d].parents == 0
    ensures d in disk || AllRefs(m)[d] == 0
  {}

  lemma RemoveLeak(m: Nodes, disk: Store, orphans: set<Digest>, open: set<Digest>, d: Digest)
    requires NoLeak(m, disk, orphans + (open + {d}))
    ensures NoLeak(m - {d}, disk, orphans + open)
  {}

  // --- no leak ---

  /** A chain of booked references, from the top down. */
  ghost predicate Chain(m: Nodes, path: seq<Digest>) {
    && path != [] && (forall i :: 0 <= i < |path| ==> path[i] in m)
    && forall i :: 0 <= i < |path| - 1 ==> path[i + 1] in m[path[i]].children
  }

  ghost function Higher(w: World, m: Nodes, c: Digest): set<Digest> { set x | x in m && w.rank(x) > w.rank(c) }

  /** Every cached node that is not on disk hangs on the meta root, on a node that was never
      referenced, or on a node that is on disk. */
  lemma {:induction false} Rooted(w: World, m: Nodes, disk: Store, orphans: set<Digest>,
                                  c: Digest) returns (path: seq<Digest>)
    requires Inv(w, m, disk, {}) && NoLeak(m, disk, orphans) && c in m && c != Zero()
    ensures Chain(m, path) && path[|path| - 1] == c
    ensures path[0] == Zero() || path[0] in orphans || path[0] in disk
    decreases |Higher(w, m, c)|
  {
    hide AllRefs, DiskClosed, Held, Kept;
    if c in disk || c in orphans { return [c]; }
    assert m[c].parents != 0;
    var p := RefsOf(m, c);
    if p == Zero() {
      path := [p, c];
    } else {
      NeedOk(w, p, c);
      assert p in Higher(w, m, c) && p !in Higher(w, m, p);
      assert Higher(w, m, p) < Higher(w, m, c);
      SmallerSet(Higher(w, m, p), Higher(w, m, c));
      var up := Rooted(w, m, disk, orphans, p);
      path := up + [c];
    }
  }

  lemma SmallerSet(a: set<Digest>, b: set<Digest>)
    requires a < b
    ensures |a| < |b|
  {
    assert b == a + (b - a);
  }

  // --- committing ---

  const IDEAL_BATCH_SIZE: nat := 100 * 1024

  /** A batch on its way: with it the disk would be closed, it holds cached nodes only, and the
      nodes in `saved` have been handed over with everything cached below them. */
  ghost predicate Pend(w: World, m: Nodes, disk: Store, batch: Store, saved: set<Digest>) {
    && DiskClosed(w, disk + batch)
    && (forall d :: d in batch ==> d in m && d != Zero() && batch[d] == m[d].blob)
    && Saved(m, disk + batch, saved)
  }

  ghost predicate Saved(m: Nodes, disk: Store, saved: set<Digest>) {
    forall d :: d in saved && d in m ==>
      && d in disk && disk[d] == m[d].blob
      && forall k :: k in m[d].children && k in m ==> k in saved
  }

  /** Only cached nodes are written, with their content. */
  ghost predicate Wrote(m: Nodes, disk: Store, disk': Store) {
    && disk.Keys <= disk'.Keys
    && forall d :: d in disk' ==>
      (d in disk && disk'[d] == disk[d]) || (d in m && d != Zero() && disk'[d] == m[d].blob)
  }

  lemma WroteNone(m: Nodes, disk: Store)
    ensures Wrote(m, disk, disk)
  {}

  lemma WroteTrans(m: Nodes, a: Store, b: Store, c: Store)
    requires Wrote(m, a, b) && Wrote(m, b, c)
    ensures Wrote(m, a, c)
  {}

  lemma PutOk(w: World, m: Nodes, disk: Store, batch: Store, saved: set<Digest>, d: Digest)
    requires Inv(w, m, disk, {}) && Pend(w, m, disk, batch, saved) && d in m && d != Zero()
    requires forall k :: k in m[d].children && k in m ==> k in saved && k in disk + batch
    ensures Pend(w, m, disk, batch[d := m[d].blob], saved + {d})
  {
    hide AllRefs, Counted, Held, Booked, DiskClosed, Saved, Kept;
    var all, all' := disk + batch, disk + batch[d := m[d].blob];
    assert all' == all[d := m[d].blob];
    NeedsKept(w, m, disk, d);
    PutClosed(w, all, d, m[d].blob);
    PutSaved(m, all, saved, d);
  }

  lemma NeedsKept(w: World, m: Nodes, disk: Store, d: Digest)
    requires Kept(w, m, disk, {}) && d in m && d != Zero()
    ensures forall k :: k in w.needs(d) ==> k in disk || (k in m && k in m[d].children)
  {}

  lemma PutClosed(w: World, disk: Store, d: Digest, blob: Blob)
    requires DiskClosed(w, disk) && forall k :: k in w.needs(d) ==> k in disk
    ensures DiskClosed(w, disk[d := blob])
  {}

  lemma PutSaved(m: Nodes, disk: Store, saved: set<Digest>, d: Digest)
    requires Saved(m, disk, saved) && d in m && forall k :: k in m[d].children && k in m ==> k in saved
    ensures Saved(m, disk[d := m[d].blob], saved + {d})
  {}

  lemma StartPend(w: World, m: Nodes, disk: Store)
    requires DiskClosed(w, disk)
    ensures Pend(w, m, disk, map[], {})
  {
    assert disk + map[] == disk;
  }

  lemma EndPend(w: World, m: Nodes, disk: Store, saved: set<Digest>)
    requires Pend(w, m, disk, map[], saved)
    ensures Saved(m, disk, saved)
    ensures forall d :: d in saved && d in m ==> d in disk && disk[d] == m[d].blob
  {
    assert disk + map[] == disk;
  }

  lemma LeakLess(m: Nodes, disk: Store, disk': Store, orphans: set<Digest>)
    requires NoLeak(m, disk, orphans) && disk.Keys <= disk'.Keys
    ensures NoLeak(m, disk', orphans)
  {}

  lemma EvictLeak(m: Nodes, disk: Store, orphans: set<Digest>, d: Digest)
    requires NoLeak(m, disk, orphans + {})
    ensures NoLeak(m - {d}, disk, orphans + {})
  {}

  lemma SavedIs(m: Nodes, disk: Store, saved: set<Digest>, d: Digest)
    requires Saved(m, disk, saved) && d in saved && d in m
    ensures d in disk && forall k :: k in m[d].children && k in m ==> k in saved
  {}

  lemma SavedLess(m: Nodes, m': Nodes, disk: Store, saved: set<Digest>)
    requires Saved(m, disk, saved) && forall x :: x in m' ==> x in m && m'[x] == m[x]
    ensures Saved(m', disk, saved)
  {}

  lemma ShedNone(w: World, m: Nodes, saved: set<Digest>, top: Digest)
    ensures Shed(w, m, m, saved, top)
  {}

  lemma ShedSaved(w: World, m: Nodes, m': Nodes, saved: set<Digest>, top: Digest, disk: Store)
    requires Shed(w, m, m', saved, top) && Saved(m, disk, saved)
    ensures Saved(m', disk, saved) && m'.Keys <= m.Keys
  {
    SavedLess(m, m', disk, saved);
  }

  lemma ShedTrans(w: World, m: Nodes, m1: Nodes, m2: Nodes, saved: set<Digest>, top: Digest, k: Digest)
    requires Shed(w, m, m1, saved, top) && Shed(w, m1, m2, saved, k) && w.rank(k) < w.rank(top) && top in m1
    ensures Shed(w, m, m2, saved, top) && top in m2
  {}

  lemma ShedLast(w: World, m: Nodes, m': Nodes, saved: set<Digest>, top: Digest)
    requires Shed(w, m, m', saved, top) && top in saved && top != Zero()
    ensures Shed(w, m, m' - {top}, saved, top)
  {}

  /** Nothing but saved nodes, not above `top`, has been dropped. */
  ghost predicate Shed(w: World, m: Nodes, m': Nodes, saved: set<Digest>, top: Digest) {
    && (forall x :: x in m' ==> x in m && m'[x] == m[x])
    && (forall x :: x in m && x !in m' ==> x in saved && !Above(w, x, top))
  }

  /** Whatever a dropped node referred to is not cached any more. */
  ghost predicate Swept(m: Nodes, m': Nodes) {
    forall x, k :: x in m && x !in m' && k in m[x].children ==> k !in m'
  }

  lemma SweptNone(m: Nodes)
    ensures Swept(m, m)
  {}

  lemma SweptTrans(w: World, m: Nodes, m1: Nodes, m2: Nodes, saved: set<Digest>, top: Digest, k: Digest)
    requires Shed(w, m, m1, saved, top) && Shed(w, m1, m2, saved, k) && Swept(m, m1) && Swept(m1, m2)
    ensures Swept(m, m2) && forall x :: x in m2 ==> x in m1
  {}

  lemma SweptLast(m: Nodes, m': Nodes, top: Digest)
    requires Swept(m, m') && top in m && forall k :: k in m[top].children ==> k !in m'
    ensures Swept(m, m' - {top})
  {}

  /** Nothing below a dropped node is cached. */
  lemma {:induction false} SweptPath(m: Nodes, m': Nodes, path: seq<Digest>)
    requires Swept(m, m') && Chain(m, path) && path[0] !in m'
    ensures forall i :: 0 <= i < |path| ==> path[i] !in m'
    decreases |path|
  {
    if |path| > 1 {
      var init := path[..|path| - 1];
      assert Chain(m, init) by {
        forall i | 0 <= i < |init| - 1
          ensures init[i + 1] in m[init[i]].children
        {
          assert path[i + 1] in m[path[i]].children;
        }
      }
      SweptPath(m, m', init);
      var n := |path| - 2;
      assert path[n + 1] in m[path[n]].children && path[n] == init[n];
    }
  }

  // --- what can be read ---

  /** The cache laid over the disk. */
  function Reads(m: Nodes, disk: Store): Store {
    map d | d in (m.Keys - {Zero()}) + disk.Keys :: if d in m && d != Zero() then m[d].blob else disk[d]
  }

  /** What can be read is closed under references. */
  lemma ReadsClosed(w: World, m: Nodes, disk: Store)
    requires Inv(w, m, disk, {})
    ensures RefsStored(Reads(m, disk), {})
    ensures forall d :: d in Reads(m, disk) ==> w.good(d, Reads(m, disk)[d])
  {
    hide AllRefs, Counted, Held, Booked, Kids;
    var r := Reads(m, disk);
    forall d | d in r ensures Fits(w, d, r[d]) {}
    forall d, c | d in r && c in Kids(d, r[d]) ensures c in r {
      assert c in w.needs(d);
      NeedOk(w, d, c);
    }
  }
}
