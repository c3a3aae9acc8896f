/** The hash references of stored nodes, and what a store that is closed under them holds. Both
    the trie downloader and the node cache rest on this. */
module Closure {
  import opened Bytes
  import opened Tree
  import opened Node
  import opened Memory
  import Rlp
  import Raw = RlpRaw
  import Hex

  /** The hash references a node's stored form holds. */
  function DirectRefs(n: Node): set<Digest> {
    match n
    case Short(_, HashRef(d), _) => {d}
    case Full(cs, _) => set i | 0 <= i < |cs| && cs[i].HashRef? :: cs[i].digest
    case _ => {}
  }

  /** The references of a blob stored under `d`; none if it is not a node. */
  function Kids(d: Digest, blob: Blob): set<Digest> {
    match DecodeNode(Some(d), blob, 0)
    case Ok(n) => DirectRefs(n)
    case _ => {}
  }

  lemma KidsOf(d: Digest, data: Blob)
    ensures DecodeNode(Some(d), data, 0).Ok? ==> Kids(d, data) == DirectRefs(DecodeNode(Some(d), data, 0).value)
  {}

  /** Every reference of every stored node is stored too, apart from the nodes in `except`. */
  ghost predicate RefsStored(db: Store, except: set<Digest>) {
    forall d, c :: d in db && d !in except && c in Kids(d, db[d]) ==> c in db
  }

  lemma EncodedPart(vs: seq<Rlp.Value>, i: nat)
    requires i < |vs|
    ensures |Rlp.Encode(vs[i])| <= |Rlp.EncodeAll(vs)|
  {
    if i > 0 { EncodedPart(vs[1..], i - 1); }
  }

  lemma DigestEncoded(d: Digest)
    ensures |Rlp.Encode(Rlp.Str(d))| == 33
  {}

  /** An embedded node holds no hash reference, at any depth. */
  lemma {:induction false} EmbeddedHasNoRefs(h: Hasher, db: Store, t: Tree)
    requires !Hashed(h, t)
    ensures Stored(h, db, t)
  {
    hide Rlp.Encode;
    if Inner(t) {
      EncodedInList(h, t);
      match t
      case Ext(_, s) =>
        EncodedPart(NodeVal(h, t).items, 1);
        if Hashed(h, s) { DigestEncoded(h(Enc(h, s))); }
        EmbeddedHasNoRefs(h, db, s);
      case Branch(kids) =>
        forall i | 0 <= i < |kids| ensures Stored(h, db, kids[i]) {
          EncodedPart(NodeVal(h, t).items, i);
          if Hashed(h, kids[i]) { DigestEncoded(h(Enc(h, kids[i]))); }
          EmbeddedHasNoRefs(h, db, kids[i]);
        }
    }
  }

  /** No node of the tree that is referenced by hash is among the exceptions. */
  ghost predicate Untainted(h: Hasher, t: Tree, except: set<Digest>)
    decreases t
  {
    && (Hashed(h, t) ==> h(Enc(h, t)) !in except)
    && match t
       case Ext(_, s) => Untainted(h, s, except)
       case Branch(kids) => forall i :: 0 <= i < |kids| ==> Untainted(h, kids[i], except)
       case _ => true
  }

  lemma {:induction false} NoneTainted(h: Hasher, t: Tree)
    ensures Untainted(h, t, {})
    decreases t
  {
    match t
    case Ext(_, s) => NoneTainted(h, s);
    case Branch(kids) => forall i | 0 <= i < |kids| ensures Untainted(h, kids[i], {}) { NoneTainted(h, kids[i]); }
    case _ =>
  }

  /** The digests of a node's hashed children. */
  function HashedKids(h: Hasher, t: Tree): set<Digest> {
    match t
    case Ext(_, s) => if Hashed(h, s) then {h(Enc(h, s))} else {}
    case Branch(kids) => set i | 0 <= i < |kids| && Hashed(h, kids[i]) :: h(Enc(h, kids[i]))
    case _ => {}
  }

  /** The references of a stored tree node are the digests of its hashed children. */
  lemma KidsOfTree(h: Hasher, t: Tree, d: Digest)
    requires Canon(t) && Inner(t) && |Enc(h, t)| < TWO64
    ensures Kids(d, Enc(h, t)) == HashedKids(h, t)
  {
    hide Rlp.Encode, DecodeNode, Enc, DirectRefs, Canon, Loaded, HashedKids;
    DecodeStored(h, t, Some(d), 0, []);
    assert Enc(h, t) + [] == Enc(h, t);
    LoadedRefs(h, t, Some(d));
  }

  lemma LoadedRefs(h: Hasher, t: Tree, d: Option<Digest>)
    ensures DirectRefs(Loaded(h, t, d, 0)) == HashedKids(h, t)
  {
    hide Enc;
    var n := Loaded(h, t, d, 0);
    if t.Branch? {
      forall i | 0 <= i < |t.kids| ensures n.children[i].HashRef? <==> Hashed(h, t.kids[i]) { NotRef(h, t.kids[i]); }
      forall i | 0 <= i < |t.kids| && Hashed(h, t.kids[i]) ensures h(Enc(h, t.kids[i])) in DirectRefs(n) {
        assert n.children[i] == HashRef(h(Enc(h, t.kids[i])));
      }
      forall i | 0 <= i < |t.kids| && n.children[i].HashRef? ensures n.children[i].digest in HashedKids(h, t) {
        assert n.children[i] == HashRef(h(Enc(h, t.kids[i])));
      }
    } else if t.Ext? {
      NotRef(h, t.sub);
    }
  }

  lemma NotRef(h: Hasher, t: Tree)
    ensures LoadedRef(h, t, 0).HashRef? <==> Hashed(h, t)
  {
    hide Enc;
  }

  /** In a closed store the whole tree is there once its root is. */
  lemma {:induction false} ClosedHoldsTree(h: Hasher, u: iset<Blob>, db: Store, except: set<Digest>, t: Tree)
    requires Universe(h, u) && Addressed(h, u, db) && RefsStored(db, except)
    requires Canon(t) && Inner(t) && Within(h, u, t) && Untainted(h, t, except)
    requires h(Enc(h, t)) in db && h(Enc(h, t)) !in except
    ensures StoredTop(h, db, t)
    decreases t, 0
  {
    hide Enc, Hashed, Kids, Canon;
    Fetched(h, u, db, t);
    KidsOfTree(h, t, h(Enc(h, t)));
    CanonBelow(t);
    match t
    case Ext(_, s) => ClosedHoldsSub(h, u, db, except, s);
    case Branch(kids) =>
      forall i | 0 <= i < |kids| ensures Stored(h, db, kids[i]) {
        if Hashed(h, kids[i]) { assert h(Enc(h, kids[i])) in HashedKids(h, t); }
        ClosedHoldsSub(h, u, db, except, kids[i]);
      }
  }

  lemma {:induction false} ClosedHoldsSub(h: Hasher, u: iset<Blob>, db: Store, except: set<Digest>, t: Tree)
    requires Universe(h, u) && Addressed(h, u, db) && RefsStored(db, except)
    requires (Canon(t) || LeafOk(t)) && Within(h, u, t) && Untainted(h, t, except)
    requires Hashed(h, t) ==> h(Enc(h, t)) in db
    ensures Stored(h, db, t)
    decreases t, 1
  {
    hide Enc, Kids, RefsStored;
    if Hashed(h, t) {
      ClosedHoldsTree(h, u, db, except, t);
    } else {
      EmbeddedHasNoRefs(h, db, t);
    }
  }

  /** What is below a canonical node is canonical, or a value. */
  lemma CanonBelow(t: Tree)
    requires Canon(t) && Inner(t)
    ensures t.Ext? ==> Canon(t.sub) || LeafOk(t.sub)
    ensures t.Branch? ==> forall i :: 0 <= i < |t.kids| ==> Canon(t.kids[i]) || LeafOk(t.kids[i])
  {}

  // --- the shape of decoded nodes ---

  /** At most the last child is a value. */
  predicate OneLeaf(n: Node) {
    match n
    case Full(cs, _) => |cs| == 17 && forall i :: 0 <= i < 16 ==> !cs[i].Value?
    case Short(_, _, _) => true
    case _ => false
  }

  /** A decoded node has at most one value, as its last child. */
  lemma DecodedShape(hash: Option<Digest>, buf: Blob, gen: Uint16)
    ensures DecodeNode(hash, buf, gen).Ok? ==> OneLeaf(DecodeNode(hash, buf, gen).value)
  {
    hide Raw.Split, Raw.Count, DecodeRef, Hex.Expand;
    if Raw.SplitList(buf).Piece? && DecodeFull(hash, Raw.SplitList(buf).content, gen).Ok? {
      KidsShape(Raw.SplitList(buf).content, 16, gen);
    }
  }

  lemma NodeShape(hash: Option<Digest>, buf: Blob, gen: Uint16)
    ensures DecodeNode(hash, buf, gen).Ok? ==> !DecodeNode(hash, buf, gen).value.Value?
  {
    hide Raw.SplitString, Raw.SplitList, Raw.Count, Hex.Expand, DecodeKids;
  }

  lemma RefShape(buf: Blob, gen: Uint16)
    ensures DecodeRef(buf, gen).Ok? ==> !DecodeRef(buf, gen).value.0.Value?
  {
    hide Raw.Split, DecodeNode;
    NodeShape(None, buf, gen);
  }

  lemma {:induction false} KidsShape(elems: Blob, n: nat, gen: Uint16)
    ensures DecodeKids(elems, n, gen).Ok? ==>
      forall i :: 0 <= i < n ==> !DecodeKids(elems, n, gen).value.0[i].Value?
    decreases n
  {
    hide DecodeRef;
    if n > 0 && DecodeKids(elems, n, gen).Ok? {
      RefShape(elems, gen);
      KidsShape(DecodeRef(elems, gen).value.1, n - 1, gen);
    }
  }
}
