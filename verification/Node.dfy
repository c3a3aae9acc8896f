/** Trie nodes in memory, their stored form and its decoder (fast/node.go, and the
    collapsing half of fast/hasher.go). */
module Node {
  import opened Bytes
  import opened Hex
  import opened Tree
  import Rlp
  import Raw = RlpRaw

  /** Cached hash, cache generation, and whether the node still has to be written. */
  datatype Flag = Flag(hash: Option<Digest>, gen: Uint16, dirty: bool)

  datatype Node =
    | Nil
    | Value(blob: Blob)
    | Short(key: Key, val: Node, flags: Flag)
    | Full(children: seq<Node>, flags: Flag)
    | HashRef(digest: Digest)

  // --- the stored form of a tree ---

  /** The RLP value of a node: children below 32 encoded bytes are embedded, others are
      replaced by their digest (Yellow Paper appendix D). */
  function NodeVal(h: Hasher, t: Tree): Rlp.Value
    decreases t, 0
  {
    match t
    case Empty => Rlp.Str([])
    case Leaf(v) => Rlp.Str(v)
    case Ext(k, s) => Rlp.Lst([Rlp.Str(Compact(k)), RefVal(h, s)])
    case Branch(kids) => Rlp.Lst(RefVals(h, kids))
  }

  function Enc(h: Hasher, t: Tree): Blob
    decreases t, 1
  {
    Rlp.Encode(NodeVal(h, t))
  }

  predicate Inner(t: Tree) { t.Ext? || t.Branch? }

  /** Too large to be embedded in its parent. */
  predicate Hashed(h: Hasher, t: Tree) { Inner(t) && |Enc(h, t)| >= 32 }

  function RefVal(h: Hasher, t: Tree): Rlp.Value
    decreases t, 2
  {
    if Inner(t) && |Enc(h, t)| >= 32 then Rlp.Str(h(Enc(h, t))) else NodeVal(h, t)
  }

  function RefVals(h: Hasher, kids: seq<Tree>): (vs: seq<Rlp.Value>)
    ensures |vs| == |kids| && forall i :: 0 <= i < |kids| ==> vs[i] == RefVal(h, kids[i])
    decreases kids, 0
  {
    if kids == [] then [] else [RefVal(h, kids[0])] + RefVals(h, kids[1..])
  }

  // --- decoding ---

  /** `Panic` is the index fault of an empty compact key. */
  datatype Decoded<+T> = Ok(value: T) | Malformed | Panic

  function DecodeNode(hash: Option<Digest>, buf: Blob, gen: Uint16): (r: Decoded<Node>)
    decreases |buf|, 0
  {
    match Raw.SplitList(buf)
    case Fail(_) => Malformed
    case Piece(_, elems, _) =>
      var c := Raw.Count(elems);
      if c == Some(2) then DecodeShort(hash, elems, gen)
      else if c == Some(17) then DecodeFull(hash, elems, gen)
      else Malformed
  }

  function DecodeShort(hash: Option<Digest>, elems: Blob, gen: Uint16): (r: Decoded<Node>)
    decreases |elems|, 3
  {
    match Raw.SplitString(elems)
    case Fail(_) => Malformed
    case Piece(_, kbuf, rest) =>
      if kbuf == [] then Panic
      else
        var key, flag := Expand(kbuf), Flag(hash, gen, false);
        if HasTerm(key) then
          match Raw.SplitString(rest)
          case Fail(_) => Malformed
          case Piece(_, val, _) => Ok(Short(key, Value(val), flag))
        else
          match DecodeRef(rest, gen)
          case Malformed => Malformed
          case Panic => Panic
          case Ok((n, _)) => Ok(Short(key, n, flag))
  }

  function DecodeFull(hash: Option<Digest>, elems: Blob, gen: Uint16): (r: Decoded<Node>)
    decreases |elems|, 3
  {
    match DecodeKids(elems, 16, gen)
    case Malformed => Malformed
    case Panic => Panic
    case Ok((kids, rest)) =>
      match Raw.SplitString(rest)
      case Fail(_) => Malformed
      case Piece(_, val, _) =>
        Ok(Full(kids + [if val == [] then Nil else Value(val)], Flag(hash, gen, false)))
  }

  /** The first `n` child references. */
  function DecodeKids(elems: Blob, n: nat, gen: Uint16): (r: Decoded<(seq<Node>, Blob)>)
    ensures r.Ok? ==> |r.value.0| == n
    decreases |elems|, 2
  {
    if n == 0 then Ok(([], elems))
    else
      match DecodeRef(elems, gen)
      case Malformed => Malformed
      case Panic => Panic
      case Ok((kid, rest)) =>
        match DecodeKids(rest, n - 1, gen)
        case Malformed => Malformed
        case Panic => Panic
        case Ok((kids, rest')) => Ok(([kid] + kids, rest'))
  }

  /** Children decoded in front of the rest. */
  function Prepended(kids: seq<Node>, r: Decoded<(seq<Node>, Blob)>): Decoded<(seq<Node>, Blob)> {
    match r
    case Malformed => Malformed
    case Panic => Panic
    case Ok((more, rest)) => Ok((kids + more, rest))
  }

  /** The same children, filled in one by one. */
  method FillKids(elems: Blob, n: nat, gen: Uint16) returns (r: Decoded<(seq<Node>, Blob)>)
    ensures r == DecodeKids(elems, n, gen)
  {
    hide DecodeRef;
    var kids, rest := [], elems;
    PrependNone(DecodeKids(elems, n, gen));
    for i := 0 to n
      invariant |kids| == i && DecodeKids(elems, n, gen) == Prepended(kids, DecodeKids(rest, n - i, gen))
    {
      var kid := DecodeRef(rest, gen);
      if kid.Malformed? { return Malformed; }
      if kid.Panic? { return Panic; }
      PrependOne(kids, kid.value.0, DecodeKids(kid.value.1, n - i - 1, gen));
      kids, rest := kids + [kid.value.0], kid.value.1;
    }
    assert kids + [] == kids;
    return Ok((kids, rest));
  }

  lemma PrependNone(r: Decoded<(seq<Node>, Blob)>)
    ensures Prepended([], r) == r
  {
    if r.Ok? { assert [] + r.value.0 == r.value.0; }
  }

  lemma PrependOne(kids: seq<Node>, kid: Node, r: Decoded<(seq<Node>, Blob)>)
    ensures Prepended(kids, Prepended([kid], r)) == Prepended(kids + [kid], r)
  {
    if r.Ok? { assert kids + ([kid] + r.value.0) == (kids + [kid]) + r.value.0; }
  }

  function DecodeRef(buf: Blob, gen: Uint16): (r: Decoded<(Node, Blob)>)
    ensures r.Ok? ==> |r.value.1| < |buf|
    decreases |buf|, 1
  {
    match Raw.Split(buf)
    case Fail(_) => Malformed
    case Piece(kind, val, rest) =>
      if kind == Rlp.List then
        if |buf| - |rest| > 32 then Malformed
        else
          match DecodeNode(None, buf, gen)
          case Malformed => Malformed
          case Panic => Panic
          case Ok(n) => Ok((n, rest))
      else if kind == Rlp.String && val == [] then Ok((Nil, rest))
      else if kind == Rlp.String && |val| == 32 then Ok((HashRef(val), rest))
      else Malformed
  }

  // --- the node a stored tree decodes to ---

  /** Embedded children come back in place, hashed ones as references; only the node itself
      gets the hash it was loaded by. */
  function Loaded(h: Hasher, t: Tree, hash: Option<Digest>, gen: Uint16): Node
    decreases t, 0
  {
    match t
    case Empty => Nil
    case Leaf(v) => Value(v)
    case Ext(k, s) => Short(k, LoadedRef(h, s, gen), Flag(hash, gen, false))
    case Branch(kids) => Full(LoadedKids(h, kids, gen), Flag(hash, gen, false))
  }

  function LoadedRef(h: Hasher, t: Tree, gen: Uint16): Node
    decreases t, 1
  {
    if Hashed(h, t) then HashRef(h(Enc(h, t))) else Loaded(h, t, None, gen)
  }

  function LoadedKids(h: Hasher, kids: seq<Tree>, gen: Uint16): (ns: seq<Node>)
    ensures |ns| == |kids| && forall i :: 0 <= i < |kids| ==> ns[i] == LoadedRef(h, kids[i], gen)
    decreases kids, 0
  {
    if kids == [] then [] else [LoadedRef(h, kids[0], gen)] + LoadedKids(h, kids[1..], gen)
  }

  // --- decoding inverts storing ---

  lemma {:induction false} DecodeStored(h: Hasher, t: Tree, hash: Option<Digest>, gen: Uint16, rest: Blob)
    requires Canon(t) && Inner(t) && |Enc(h, t)| < TWO64
    ensures DecodeNode(hash, Enc(h, t) + rest, gen) == Ok(Loaded(h, t, hash, gen))
    decreases t, 2
  {
    Raw.SplitEncode(NodeVal(h, t), rest);
    Raw.CountEncodeAll(NodeVal(h, t).items);
    match t
    case Ext(k, s) => DecodeStoredShort(h, t, hash, gen);
    case Branch(kids) => DecodeStoredFull(h, t, hash, gen);
  }

  lemma LeafRef(h: Hasher, v: Blob, gen: Uint16)
    ensures RefVal(h, Leaf(v)) == Rlp.Str(v) && LoadedRef(h, Leaf(v), gen) == Value(v)
    ensures RefVal(h, Empty) == Rlp.Str([]) && LoadedRef(h, Empty, gen) == Nil
  {}

  lemma EncodeOne(a: Rlp.Value)
    ensures Rlp.EncodeAll([a]) == Rlp.Encode(a) + []
  {
    assert [a][1..] == [];
  }

  lemma EncodeTwo(a: Rlp.Value, b: Rlp.Value)
    ensures Rlp.EncodeAll([a, b]) == Rlp.Encode(a) + (Rlp.Encode(b) + [])
  {
    assert [a, b][1..] == [b];
    EncodeOne(b);
  }

  lemma {:induction false} DecodeStoredShort(h: Hasher, t: Tree, hash: Option<Digest>, gen: Uint16)
    requires Canon(t) && t.Ext? && |Enc(h, t)| < TWO64
    ensures DecodeShort(hash, Rlp.EncodeAll(NodeVal(h, t).items), gen) == Ok(Loaded(h, t, hash, gen))
    decreases t, 1
  {
    hide Rlp.Encode, Rlp.EncodeAll, Raw.Split, Expand, Compact;
    var key, ref := Rlp.Str(Compact(t.key)), RefVal(h, t.sub);
    EncodeTwo(key, ref);
    EncodedInList(h, t);
    Raw.SplitEncode(key, Rlp.Encode(ref) + []);
    CompactRoundTrip(t.key);
    if Terminated(t.key) {
      assert t.key[|t.key| - 1] == 16;
      LeafRef(h, t.sub.value, gen);
      Raw.SplitEncode(ref, []);
    } else {
      DecodeStoredRef(h, t.sub, gen, []);
    }
  }

  /** The elements of a node's list are no longer than the node. */
  lemma EncodedInList(h: Hasher, t: Tree)
    requires Inner(t)
    ensures |Rlp.EncodeAll(NodeVal(h, t).items)| < |Enc(h, t)|
  {}

  /** A full node's list is the sixteen references followed by the value. */
  lemma FullSplit(h: Hasher, kids: seq<Tree>, gen: Uint16)
    requires |kids| == 17
    ensures Rlp.EncodeAll(RefVals(h, kids)) ==
      Rlp.EncodeAll(RefVals(h, kids[..16])) + (Rlp.Encode(RefVal(h, kids[16])) + [])
    ensures LoadedKids(h, kids, gen) == LoadedKids(h, kids[..16], gen) + [LoadedRef(h, kids[16], gen)]
  {
    hide Rlp.Encode, RefVals, RefVal, LoadedRef, LoadedKids;
    var last := RefVal(h, kids[16]);
    assert RefVals(h, kids) == RefVals(h, kids[..16]) + [last];
    Rlp.EncodeAllAppend(RefVals(h, kids[..16]), [last]);
    EncodeOne(last);
  }

  lemma {:induction false} DecodeStoredFull(h: Hasher, t: Tree, hash: Option<Digest>, gen: Uint16)
    requires Canon(t) && t.Branch? && |Enc(h, t)| < TWO64
    ensures DecodeFull(hash, Rlp.EncodeAll(NodeVal(h, t).items), gen) == Ok(Loaded(h, t, hash, gen))
    decreases t, 1
  {
    hide Rlp.Encode, Rlp.EncodeAll, Raw.Split, DecodeKids, RefVals, LoadedKids;
    FullSplit(h, t.kids, gen);
    EncodedInList(h, t);
    var last := RefVal(h, t.kids[16]);
    DecodeStoredKids(h, t, t.kids[..16], gen, Rlp.Encode(last) + []);
    Raw.SplitEncode(last, []);
  }

  lemma {:induction false} DecodeStoredKids(h: Hasher, t: Tree, kids: seq<Tree>, gen: Uint16, rest: Blob)
    requires forall k :: k in kids ==> Canon(k) && k < t
    requires |Rlp.EncodeAll(RefVals(h, kids)) + rest| < TWO64
    ensures DecodeKids(Rlp.EncodeAll(RefVals(h, kids)) + rest, |kids|, gen) == Ok((LoadedKids(h, kids, gen), rest))
    decreases t, 0, kids
  {
    hide Rlp.Encode, DecodeRef;
    if kids == [] {
      assert Rlp.EncodeAll(RefVals(h, kids)) + rest == rest;
    } else {
      var tail := Rlp.EncodeAll(RefVals(h, kids[1..]));
      Assoc(Rlp.Encode(RefVal(h, kids[0])), tail, rest);
      Cons(RefVal(h, kids[0]), RefVals(h, kids[1..]));
      assert kids[0] in kids;
      DecodeStoredRef(h, kids[0], gen, tail + rest);
      DecodeStoredKids(h, t, kids[1..], gen, rest);
    }
  }

  lemma {:induction false} DecodeStoredRef(h: Hasher, t: Tree, gen: Uint16, rest: Blob)
    requires Canon(t) && |Rlp.Encode(RefVal(h, t))| < TWO64
    ensures DecodeRef(Rlp.Encode(RefVal(h, t)) + rest, gen) == Ok((LoadedRef(h, t, gen), rest))
    decreases t, 3
  {
    hide Rlp.Encode, Raw.Split, DecodeNode;
    Raw.SplitEncode(RefVal(h, t), rest);
    if Inner(t) && !Hashed(h, t) {
      DecodeStored(h, t, None, gen, rest);
    }
  }
}
