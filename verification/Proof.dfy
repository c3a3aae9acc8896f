/** Merkle proofs (fast/proof.go, simple/nodeset.go): building them, checking them, and why
    a checked answer is the trie's own. */
module Proof {
  import opened Bytes
  import opened Hex
  import opened Tree
  import opened Node
  import opened Memory
  import opened Trie
  import RlpEncoder

  // --- what a proof consists of ---

  /** The inner nodes met on the way to `key`. */
  function PathNodes(t: Tree, key: Key): (ts: seq<Tree>) {
    match t
    case Ext(k, s) => if k <= key then [t] + PathNodes(s, key[|k|..]) else [t]
    case Branch(kids) => if key != [] && |kids| == 17 then [t] + PathNodes(kids[key[0]], key[1..]) else [t]
    case _ => []
  }

  /** Stored forms of the nodes that are not embedded in their parent; the first always counts. */
  function Blobs(h: Hasher, ts: seq<Tree>): seq<Blob> {
    if ts == [] then []
    else
      var last := ts[|ts| - 1];
      Blobs(h, ts[..|ts| - 1]) + if |ts| == 1 || Hashed(h, last) then [Enc(h, last)] else []
  }

  function ProofBlobs(h: Hasher, t: Tree, key: Key): seq<Blob> { Blobs(h, PathNodes(t, key)) }

  lemma {:induction false} BlobsMember(h: Hasher, ts: seq<Tree>, i: nat)
    requires i < |ts| && (i == 0 || Hashed(h, ts[i]))
    ensures Enc(h, ts[i]) in Blobs(h, ts)
    decreases |ts|
  {
    if i < |ts| - 1 {
      BlobsMember(h, ts[..|ts| - 1], i);
    }
  }

  lemma BlobsStep(h: Hasher, ts: seq<Tree>, i: nat)
    requires i < |ts|
    ensures Blobs(h, ts[..i + 1]) == Blobs(h, ts[..i]) + if i == 0 || Hashed(h, ts[i]) then [Enc(h, ts[i])] else []
  {
    assert ts[..i + 1][..i] == ts[..i];
  }

  /** Everything but the first `n` elements. */
  function Skip<T>(s: seq<T>, n: nat): seq<T> { if n <= |s| then s[n..] else [] }

  // --- building ---

  /** Nodes on the path, and the trees they stand for. */
  ghost predicate Path(h: Hasher, u: iset<Blob>, nodes: seq<Node>, ts: seq<Tree>) {
    |nodes| == |ts| && forall i :: 0 <= i < |ts| ==> OnPath(h, u, nodes[i], ts[i], i == 0)
  }

  ghost predicate OnPath(h: Hasher, u: iset<Blob>, n: Node, t: Tree, top: bool) {
    (n.Short? || n.Full?) && Repr(h, n, t, top) && Canon(t) && Within(h, u, t)
  }

  lemma PathSnoc(h: Hasher, u: iset<Blob>, nodes: seq<Node>, ts: seq<Tree>, n: Node, t: Tree)
    requires Path(h, u, nodes, ts) && OnPath(h, u, n, t, nodes == [])
    ensures Path(h, u, nodes + [n], ts + [t])
  {}

  lemma PathStep(t: Tree, key: Key)
    requires Inner(t) && Terminated(key) && Canon(t)
    ensures t.Ext? && t.key <= key ==> PathNodes(t, key) == [t] + PathNodes(t.sub, key[|t.key|..])
    ensures t.Ext? && !(t.key <= key) ==> PathNodes(t, key) == [t]
    ensures t.Branch? ==> |t.kids| == 17 && PathNodes(t, key) == [t] + PathNodes(t.kids[key[0]], key[1..])
  {}

  /** The nodes on the path, loaded where necessary. */
  method CollectPath(trie: Trie, fullKey: Key) returns (nodes: seq<Node>, ghost ts: seq<Tree>, err: Option<Digest>)
    requires trie.Valid() && Terminated(fullKey)
    ensures err.Some? ==> err.value !in trie.db
    ensures trie.Complete() ==> err == None
    ensures err.None? ==> ts == PathNodes(trie.tree, fullKey) && Path(trie.h, trie.u, nodes, ts)
  {
    hide Canon, Enc, Hashed, Terminated, PathNodes, StoredTop;
    var h := trie.h;
    var key, tn := fullKey, trie.root;
    ghost var t := trie.tree;
    nodes, ts, err := [], [], None;
    NonEmpty(fullKey);
    assert PathNodes(t, key) == ts + PathNodes(t, key);
    while |key| > 0 && !tn.Nil?
      invariant Within(h, trie.u, t) && Repr(h, tn, t, nodes == []) && Suffix(key) && CanonAt(t, key)
      invariant Path(h, trie.u, nodes, ts) && PathNodes(trie.tree, fullKey) == ts + PathNodes(t, key)
      invariant trie.Complete() ==> Avail(h, trie.db, tn, t, nodes == [])
      invariant err == None
      decreases if tn.Nil? then 0 else 1, t, if tn.HashRef? then 1 else 0
    {
      NotLeaf(t);
      match tn {
        case Short(k, c, _) =>
          PathStep(t, key);
          PathSnoc(h, trie.u, nodes, ts, tn, t);
          nodes, ts := nodes + [tn], ts + [t];
          if |key| < |k| || k != key[..|k|] {
            tn, t := Nil, Empty;
            PathEmpty(key);
            CanonEmpty(key);
          } else {
            assert k <= key;
            CanonSubAt(t, key);
            Assoc(ts[..|ts| - 1], [t], PathNodes(t.sub, key[|k|..]));
            tn, key, t := c, key[|k|..], t.sub;
          }
        case Full(cs, _) =>
          PathStep(t, key);
          CanonKidAt(t, key);
          PathSnoc(h, trie.u, nodes, ts, tn, t);
          Assoc(ts, [t], PathNodes(t.kids[key[0]], key[1..]));
          nodes, ts := nodes + [tn], ts + [t];
          tn, t, key := cs[key[0]], t.kids[key[0]], key[1..];
        case HashRef(d) =>
          var n;
          n, err := trie.ResolveHash(d, t, nodes == []);
          if err.Some? { return; }
          tn := n;
      }
    }
    PathDone(h, tn, t, key, nodes == []);
  }

  lemma NonEmpty(key: Key)
    requires Terminated(key)
    ensures key != []
  {}

  lemma PathEmpty(key: Key)
    ensures PathNodes(Empty, key) == []
  {}

  lemma CanonEmpty(key: Key)
    ensures CanonAt(Empty, key)
  {}

  lemma PathDone(h: Hasher, n: Node, t: Tree, key: Key, top: bool)
    requires Repr(h, n, t, top) && CanonAt(t, key) && (key == [] || n.Nil?)
    ensures PathNodes(t, key) == []
  {}

  /** Builds the proof for a key. Each entry is stored under the hash of its content; the first
      `fromLevel` entries are left out. */
  method Prove(trie: Trie, key: Blob, fromLevel: nat) returns (proof: seq<(Digest, Blob)>, err: Option<Digest>)
    requires trie.Valid()
    modifies trie`db
    ensures trie.db == old(trie.db)
    ensures err.Some? ==> err.value !in trie.db
    ensures trie.Complete() ==> err == None
    ensures err.None? ==> Proves(trie.h, proof, Skip(ProofBlobs(trie.h, trie.tree, KeyHex(key)), fromLevel))
  {
    hide Canon, Enc, Hashed, PathNodes, Blobs, Proves, Skip, OnPath;
    proof := [];
    var k := KeybytesToHex(key);
    var nodes; ghost var ts;
    nodes, ts, err := CollectPath(trie, k);
    if err.Some? { return; }
    var level, i := fromLevel, 0;
    BlobsNone(trie.h, ts);
    ghost var h := trie.h;
    SkipNone(h, fromLevel);
    while i < |nodes|
      invariant 0 <= i <= |nodes| && trie.db == old(trie.db)
      invariant level == (if |Blobs(h, ts[..i])| >= fromLevel then 0 else fromLevel - |Blobs(h, ts[..i])|)
      invariant Proves(h, proof, Skip(Blobs(h, ts[..i]), fromLevel))
    {
      BlobsStep(h, ts, i);
      SkipStep(h, Blobs(h, ts[..i]), proof, fromLevel, Enc(h, ts[i]));
      assert OnPath(h, trie.u, nodes[i], ts[i], i == 0);
      var hashed, d, enc := ProofEntry(trie, nodes[i], ts[i], i == 0);
      if hashed || i == 0 {
        if level > 0 {
          level := level - 1;
        } else {
          proof := proof + [(d, enc)];
        }
      }
      i := i + 1;
    }
    assert ts[..i] == ts;
  }

  lemma SkipNone(h: Hasher, n: nat)
    ensures Proves(h, [], Skip([], n))
  {}

  /** One more blob: it is skipped while levels are left, and added to the proof afterwards. */
  lemma SkipStep(h: Hasher, blobs: seq<Blob>, proof: seq<(Digest, Blob)>, n: nat, enc: Blob)
    requires Proves(h, proof, Skip(blobs, n))
    ensures |blobs| < n ==> Proves(h, proof, Skip(blobs + [enc], n))
    ensures |blobs| >= n ==> Proves(h, proof + [(h(enc), enc)], Skip(blobs + [enc], n))
    ensures blobs + [] == blobs
  {
    if |blobs| >= n { assert (blobs + [enc])[n..] == blobs[n..] + [enc]; }
  }

  /** Stored form and hash of one node on the path, and whether its parent refers to it by hash. */
  method ProofEntry(trie: Trie, n: Node, ghost t: Tree, ghost top: bool) returns (hashed: bool, d: Digest, enc: Blob)
    requires trie.Env() && OnPath(trie.h, trie.u, n, t, top)
    modifies trie`db
    ensures trie.db == old(trie.db)
    ensures hashed == Hashed(trie.h, t) && enc == Enc(trie.h, t) && d == trie.h(enc)
  {
    hide Canon, Hashed;
    InnerOf(trie.h, n, t, top);
    var collapsed, _ := trie.HashChildren(n, t, false, top, false);
    var hash := trie.StoreNode(collapsed, n.flags.hash, t, false, false);
    assert Enc(trie.h, t) in trie.u;
    enc := RlpEncoder.EncodeToBytes(collapsed);
    hashed := hash.Some?;
    d := if hashed then hash.value else trie.h(enc);
  }

  lemma BlobsNone(h: Hasher, ts: seq<Tree>)
    ensures Blobs(h, ts[..0]) == []
  {}

  lemma InnerOf(h: Hasher, n: Node, t: Tree, top: bool)
    requires (n.Short? || n.Full?) && Repr(h, n, t, top)
    ensures Inner(t) && (n.flags.hash.Some? ==> n.flags.hash.value == h(Enc(h, t)))
  {}

  /** The entries are exactly `blobs`, each under its hash. */
  ghost predicate Proves(h: Hasher, proof: seq<(Digest, Blob)>, blobs: seq<Blob>) {
    |proof| == |blobs| && forall i :: 0 <= i < |blobs| ==> proof[i] == (h(blobs[i]), blobs[i])
  }

  // --- checking ---

  /** How far a decoded node takes a key: to a reference, to a value, to nothing, or to the
      index fault of a full node met with no key left. */
  datatype Step = Onward(rest: Key, digest: Digest) | Found(value: Blob) | Nothing | Fault

  function Walk(n: Node, key: Key): Step
    decreases n
  {
    match n
    case Short(k, c, _) => if k <= key then Walk(c, key[|k|..]) else Nothing
    case Full(cs, _) => if key == [] || |cs| != 17 then Fault else Walk(cs[key[0]], key[1..])
    case HashRef(d) => Onward(key, d)
    case Nil => Nothing
    case Value(v) => Found(v)
  }

  /** The loop of `get`. */
  method GetFrom(node: Node, fullKey: Key) returns (s: Step)
    ensures s == Walk(node, fullKey)
  {
    var tn, key := node, fullKey;
    while true
      invariant Walk(tn, key) == Walk(node, fullKey)
      decreases tn
    {
      match tn {
        case Short(k, c, _) =>
          if |key| < |k| || k != key[..|k|] { return Nothing; }
          tn, key := c, key[|k|..];
        case Full(cs, _) =>
          if key == [] || |cs| != 17 { return Fault; }
          tn, key := cs[key[0]], key[1..];
        case HashRef(d) => return Onward(key, d);
        case Nil => return Nothing;
        case Value(v) => return Found(v);
      }
    }
  }

  /** `Exhausted` stands for a proof set that sends the checker around in circles. */
  datatype Answer = Present(value: Blob) | Absent | Missing | BadNode | Crash | Exhausted

  function Verify(rootHash: Digest, key: Key, db: Store, steps: nat): Answer
    decreases steps
  {
    if steps == 0 then Exhausted
    else if rootHash !in db then Missing
    else
      match DecodeNode(Some(rootHash), db[rootHash], 0)
      case Malformed => BadNode
      case Panic => Crash
      case Ok(n) =>
        match Walk(n, key)
        case Nothing => Absent
        case Found(v) => Present(v)
        case Fault => Crash
        case Onward(rest, d) => Verify(d, rest, db, steps - 1)
  }

  /** The loop of `VerifyProof`, cut off after `steps` proof nodes. */
  method VerifyProof(rootHash: Digest, key: Blob, db: Store, steps: nat) returns (a: Answer)
    ensures a == Verify(rootHash, KeyHex(key), db, steps)
  {
    var k := KeybytesToHex(key);
    var wantHash, left: nat := rootHash, steps;
    while left > 0
      invariant left <= steps && Verify(wantHash, k, db, left) == Verify(rootHash, KeyHex(key), db, steps)
    {
      if wantHash !in db { return Missing; }
      var n := DecodeNode(Some(wantHash), db[wantHash], 0);
      if n.Malformed? { return BadNode; }
      if n.Panic? { return Crash; }
      var s := GetFrom(n.value, k);
      match s {
        case Nothing => return Absent;
        case Found(v) => return Present(v);
        case Fault => return Crash;
        case Onward(rest, d) => k, wantHash := rest, d;
      }
      left := left - 1;
    }
    a := Exhausted;
  }

  /** What the trie itself answers. */
  function Truth(t: Tree, key: Key): Answer {
    match Lookup(t, key) case Some(v) => Present(v) case None => Absent
  }

  /** Walking a node that stands for `t` follows `t`: to the answer, or to a strictly shorter
      key below a node referred to by hash. */
  lemma {:induction false} WalkFollows(h: Hasher, u: iset<Blob>, n: Node, t: Tree, key: Key,
                                       top: bool) returns (s: Tree)
    requires Repr(h, n, t, top) && Within(h, u, t) && Suffix(key) && CanonAt(t, key)
    ensures match Walk(n, key)
      case Nothing => Lookup(t, key) == None
      case Found(v) => Lookup(t, key) == Some(v)
      case Fault => false
      case Onward(rest, d) =>
        && Lookup(s, rest) == Lookup(t, key) && Terminated(rest) && Canon(s) && Inner(s) && Within(h, u, s)
        && d == h(Enc(h, s)) && |rest| <= |key| && (n.HashRef? || |rest| < |key|)
        && ((n.HashRef? && top) || Hashed(h, s))
        && Suffixed(PathNodes(t, key), PathNodes(s, rest), !n.HashRef?)
    decreases n
  {
    hide Enc, Hashed, Canon, Terminated;
    s := t;
    if key != [] { NotLeaf(t); }
    match n
    case Short(k, c, _) =>
      if k <= key {
        CanonSubAt(t, key);
        s := WalkFollows(h, u, c, t.sub, key[|k|..], false);
        var rest := if Walk(n, key).Onward? then Walk(n, key).rest else [];
        SuffixCons(t, PathNodes(t.sub, key[|k|..]), PathNodes(s, rest));
      }
    case Full(cs, _) =>
      CanonKidAt(t, key);
      s := WalkFollows(h, u, cs[key[0]], t.kids[key[0]], key[1..], false);
      var rest := if Walk(n, key).Onward? then Walk(n, key).rest else [];
      SuffixCons(t, PathNodes(t.kids[key[0]], key[1..]), PathNodes(s, rest));
    case _ => SuffixSelf(PathNodes(t, key));
  }

  /** `b` is a suffix of `a`, a proper one if `strict`. */
  ghost predicate Suffixed(a: seq<Tree>, b: seq<Tree>, strict: bool) {
    |b| <= |a| && a[|a| - |b|..] == b && (strict ==> |b| < |a|)
  }

  lemma SuffixCons(t: Tree, a: seq<Tree>, b: seq<Tree>)
    ensures Suffixed(a, b, false) ==> Suffixed([t] + a, b, true)
  {
    if Suffixed(a, b, false) { assert ([t] + a)[|a| + 1 - |b|..] == a[|a| - |b|..]; }
  }

  lemma SuffixSelf(a: seq<Tree>)
    ensures Suffixed(a, a, false)
  {}

  /** Soundness. Against the root hash of `t`, a content-addressed proof set that does not collide
      with the trie's own nodes gives the trie's answer or lacks a node: it never gives another
      answer, never fails to decode, and never runs on past the key. */
  lemma {:induction false} VerifySound(h: Hasher, u: iset<Blob>, t: Tree, key: Key, db: Store, steps: nat)
    requires Universe(h, u) && Addressed(h, u, db) && Canon(t) && Inner(t) && Within(h, u, t)
    requires Terminated(key)
    ensures Verify(h(Enc(h, t)), key, db, steps) in {Missing, Exhausted, Truth(t, key)}
    ensures steps > |key| ==> Verify(h(Enc(h, t)), key, db, steps) != Exhausted
    decreases steps
  {
    hide Enc, Canon, Terminated, Lookup, DecodeNode, Loaded, Repr, Within, Universe, Addressed, PathNodes, Walk,
      Suffixed;
    NonEmpty(key);
    var d := h(Enc(h, t));
    if steps > 0 && d in db {
      DecodedFollows(h, u, t, db);
      var n := Loaded(h, t, Some(d), 0);
      var s := WalkFollows(h, u, n, t, key, true);
      if Walk(n, key).Onward? { VerifySound(h, u, s, Walk(n, key).rest, db, steps - 1); }
    }
  }

  lemma DecodedFollows(h: Hasher, u: iset<Blob>, t: Tree, db: Store)
    requires Universe(h, u) && Addressed(h, u, db) && Canon(t) && Inner(t) && Within(h, u, t) && h(Enc(h, t)) in db
    ensures var n := Loaded(h, t, Some(h(Enc(h, t))), 0);
      && DecodeNode(Some(h(Enc(h, t))), db[h(Enc(h, t))], 0) == Ok(n)
      && Repr(h, n, t, true) && !n.HashRef?
  {
    Fetched(h, u, db, t);
    assert Enc(h, t) + [] == Enc(h, t);
    DecodeStored(h, t, Some(h(Enc(h, t))), 0, []);
    LoadedRepr(h, t, Some(h(Enc(h, t))), 0, true);
  }

  /** The proof set has every node of the path that is referred to by hash. */
  ghost predicate Covers(h: Hasher, db: Store, ts: seq<Tree>) {
    forall i :: 0 <= i < |ts| && (i == 0 || Hashed(h, ts[i])) ==> h(Enc(h, ts[i])) in db
  }

  /** Completeness. With every such node present, the check gives the trie's answer. */
  lemma {:induction false} VerifyComplete(h: Hasher, u: iset<Blob>, t: Tree, key: Key, db: Store, steps: nat)
    requires Universe(h, u) && Addressed(h, u, db) && Canon(t) && Inner(t) && Within(h, u, t)
    requires Terminated(key) && Covers(h, db, PathNodes(t, key)) && steps > |key|
    ensures Verify(h(Enc(h, t)), key, db, steps) == Truth(t, key)
    decreases steps
  {
    hide Enc, Hashed, Canon, Terminated, Lookup, DecodeNode, Loaded, Repr, Within, Universe, Addressed, PathNodes,
      Covers, Walk, Suffixed;
    NonEmpty(key);
    var d := h(Enc(h, t));
    PathHead(h, db, t, key);
    DecodedFollows(h, u, t, db);
    var n := Loaded(h, t, Some(d), 0);
    var s := WalkFollows(h, u, n, t, key, true);
    if Walk(n, key).Onward? {
      PathFirst(s, Walk(n, key).rest);
      CoversSuffix(h, db, PathNodes(t, key), s, PathNodes(s, Walk(n, key).rest));
      VerifyComplete(h, u, s, Walk(n, key).rest, db, steps - 1);
    }
  }

  lemma PathFirst(t: Tree, key: Key)
    requires Inner(t)
    ensures PathNodes(t, key) != [] && PathNodes(t, key)[0] == t
  {}

  lemma PathHead(h: Hasher, db: Store, t: Tree, key: Key)
    requires Inner(t) && Covers(h, db, PathNodes(t, key))
    ensures h(Enc(h, t)) in db
  {
    hide PathNodes;
    PathFirst(t, key);
  }

  lemma CoversSuffix(h: Hasher, db: Store, a: seq<Tree>, s: Tree, b: seq<Tree>)
    requires Covers(h, db, a) && Suffixed(a, b, true) && b != [] && b[0] == s && Hashed(h, s)
    ensures Covers(h, db, b)
  {
    forall i | 0 <= i < |b| && (i == 0 || Hashed(h, b[i])) ensures h(Enc(h, b[i])) in db {
      assert b[i] == a[|a| - |b|..][i] == a[|a| - |b| + i];
    }
  }
}
