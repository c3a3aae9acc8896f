/** What decodeNode (fast/node.go) makes of bytes that no trie has stored: which it accepts, which it
    refuses, and on which it fails with an index out of range. */
module Decoding {
  import opened Bytes
  import opened Node
  import opened Hex
  import Rlp
  import Raw = RlpRaw

  // --- items ---

  /** The items that a buffer consists of, each with its header; `None` if a header is malformed.
      What is inside a list is not looked at. */
  function Items(b: Blob): (r: Option<seq<Blob>>)
    ensures r.Some? ==> forall i :: 0 <= i < |r.value| ==> 0 < |r.value[i]| <= |b|
    decreases |b|
  {
    if b == [] then Some([])
    else
      match Raw.ReadKind(b)
      case RawErr(_) => None
      case RawHead(_, tag, size) =>
        match Items(b[tag + size..])
        case None => None
        case Some(rest) => Some([b[..tag + size]] + rest)
  }

  lemma {:induction false} ItemsCounted(b: Blob)
    ensures Raw.Count(b) == match Items(b) case None => None case Some(vs) => Some(|vs|)
    decreases |b|
  {
    hide Raw.ReadKind;
    if b != [] {
      var h := Raw.ReadKind(b);
      if h.RawHead? { ItemsCounted(b[h.tag + h.size..]); }
    }
  }

  /** The first item has the kind and content of the buffer, and the others are behind it. */
  lemma FirstItem(b: Blob)
    requires Items(b).Some? && Items(b).value != []
    ensures var v := Items(b).value[0];
      && |v| <= |b| && Raw.Split(b).Piece? && Raw.Split(v) == Raw.Split(b).(rest := []) && Raw.Split(b).rest == b[|v|..]
      && Items(b[|v|..]) == Some(Items(b).value[1..])
  {
    hide Raw.ReadKind, Items;
    Unfold(b);
    var h := Raw.ReadKind(b);
    var v := b[..h.tag + h.size];
    PrefixKind(b);
    assert v[h.tag..h.tag + h.size] == b[h.tag..h.tag + h.size];
    assert v[h.tag + h.size..] == [];
  }

  lemma Unfold(b: Blob)
    requires Items(b).Some? && Items(b).value != []
    ensures var h := Raw.ReadKind(b);
      && h.RawHead? && Items(b[h.tag + h.size..]).Some?
      && Items(b).value == [b[..h.tag + h.size]] + Items(b[h.tag + h.size..]).value
  {
    hide Raw.ReadKind;
  }

  /** A header does not depend on what follows its item. */
  lemma PrefixKind(b: Blob)
    requires Raw.ReadKind(b).RawHead?
    ensures var h := Raw.ReadKind(b); Raw.ReadKind(b[..h.tag + h.size]) == h
  {
    var h := Raw.ReadKind(b);
    var v := b[..h.tag + h.size];
    assert v[0] == b[0];
    if h.tag > 1 { assert v[1..h.tag] == b[1..h.tag]; }
  }

  // --- the outcome, read off the items ---

  predicate IsString(v: Blob) { Raw.SplitString(v).Piece? }

  /** What a pair starts with: a key, or nothing. */
  function KeyOf(v: Blob): Blob
    requires IsString(v)
  {
    Raw.SplitString(v).content
  }

  /** The items of a list. */
  function Parts(b: Blob): (vs: seq<Blob>)
    ensures forall i :: 0 <= i < |vs| ==> |vs[i]| < |b|
  {
    var p := Raw.SplitList(b);
    if p.Piece? && Items(p.content).Some? then Items(p.content).value else []
  }

  /** Bytes that decode to a node. */
  predicate IsNode(b: Blob)
    decreases |b|, 0
  {
    var vs := Parts(b);
    if |vs| == 2 then
      && IsString(vs[0]) && KeyOf(vs[0]) != []
      && if HasTerm(Expand(KeyOf(vs[0]))) then IsString(vs[1]) else IsRef(vs[1])
    else |vs| == 17 && IsString(vs[16]) && forall i :: 0 <= i < 16 ==> IsRef(vs[i])
  }

  /** An item that is a reference: nothing, a hash, or a node of at most 32 bytes. */
  predicate IsRef(v: Blob)
    decreases |v|, 1
  {
    match Raw.Split(v)
    case Fail(_) => false
    case Piece(kind, c, _) =>
      if kind == Rlp.List then |v| <= 32 && IsNode(v) else kind == Rlp.String && (|c| == 0 || |c| == 32)
  }

  /** Bytes on which decoding fails: a pair whose key is the empty string, or a node with such a
      node embedded in front of which nothing is malformed. */
  ghost predicate Faults(b: Blob)
    decreases |b|, 0
  {
    var vs := Parts(b);
    if |vs| == 2 then
      IsString(vs[0]) && (KeyOf(vs[0]) == [] || (!HasTerm(Expand(KeyOf(vs[0]))) && FaultsIn(vs[1])))
    else
      |vs| == 17 && exists i :: 0 <= i < 16 && FaultsIn(vs[i]) && forall j :: 0 <= j < i ==> IsRef(vs[j])
  }

  ghost predicate FaultsIn(v: Blob)
    decreases |v|, 1
  {
    Raw.SplitList(v).Piece? && |v| <= 32 && Faults(v)
  }

  /** The outcome of decoding any bytes is what their items say. */
  lemma {:induction false} DecodeOutcome(b: Blob, hash: Option<Digest>, gen: Uint16)
    ensures DecodeNode(hash, b, gen).Ok? <==> IsNode(b)
    ensures DecodeNode(hash, b, gen).Panic? <==> Faults(b)
    decreases |b|, 0
  {
    hide Raw.Split, Raw.Count, DecodeShort, DecodeFull, Expand, Items, IsString, KeyOf, IsRef, FaultsIn;
    var p := Raw.SplitList(b);
    if p.Piece? {
      ItemsCounted(p.content);
      if Items(p.content).Some? {
        if |Parts(b)| == 2 {
          PairOutcome(p.content, Parts(b), hash, gen);
        } else if |Parts(b)| == 17 {
          FullOutcome(p.content, Parts(b), hash, gen);
        }
      }
    }
  }

  lemma {:induction false} PairOutcome(elems: Blob, vs: seq<Blob>, hash: Option<Digest>, gen: Uint16)
    requires Items(elems) == Some(vs) && |vs| == 2
    ensures DecodeShort(hash, elems, gen).Ok? <==>
      && IsString(vs[0]) && KeyOf(vs[0]) != []
      && if HasTerm(Expand(KeyOf(vs[0]))) then IsString(vs[1]) else IsRef(vs[1])
    ensures DecodeShort(hash, elems, gen).Panic? <==>
      IsString(vs[0]) && (KeyOf(vs[0]) == [] || (!HasTerm(Expand(KeyOf(vs[0]))) && FaultsIn(vs[1])))
    decreases |elems|, 2
  {
    hide Raw.Split, DecodeRef, Expand, IsRef, FaultsIn, Items;
    FirstItem(elems);
    var rest := elems[|vs[0]|..];
    FirstItem(rest);
    RefOutcome(rest, gen);
  }

  lemma {:induction false} FullOutcome(elems: Blob, vs: seq<Blob>, hash: Option<Digest>, gen: Uint16)
    requires Items(elems) == Some(vs) && |vs| == 17
    ensures DecodeFull(hash, elems, gen).Ok? <==> IsString(vs[16]) && forall i :: 0 <= i < 16 ==> IsRef(vs[i])
    ensures DecodeFull(hash, elems, gen).Panic? <==>
      exists i :: 0 <= i < 16 && FaultsIn(vs[i]) && forall j :: 0 <= j < i ==> IsRef(vs[j])
    decreases |elems|, 3
  {
    hide Raw.Split, DecodeKids, IsRef, FaultsIn, Items;
    KidsOutcome(elems, vs, 16, gen);
    if DecodeKids(elems, 16, gen).Ok? { FirstItem(DecodeKids(elems, 16, gen).value.1); }
  }

  lemma {:induction false} KidsOutcome(elems: Blob, vs: seq<Blob>, n: nat, gen: Uint16)
    requires Items(elems) == Some(vs) && n <= |vs|
    ensures var r := DecodeKids(elems, n, gen);
      && (r.Ok? <==> forall i :: 0 <= i < n ==> IsRef(vs[i]))
      && (r.Ok? ==> Items(r.value.1) == Some(vs[n..]))
      && (r.Panic? <==> exists i :: 0 <= i < n && FaultsIn(vs[i]) && forall j :: 0 <= j < i ==> IsRef(vs[j]))
    decreases |elems|, 2
  {
    hide DecodeRef, IsRef, FaultsIn, Items;
    if n > 0 {
      FirstItem(elems);
      RefOutcome(elems, gen);
      KidsOutcome(elems[|vs[0]|..], vs[1..], n - 1, gen);
      FaultShift(vs, n);
    } else {
      assert vs[0..] == vs;
    }
  }

  /** The first fault of a list is at its head, or behind a head that is a reference. */
  lemma FaultShift(vs: seq<Blob>, n: nat)
    requires 0 < n <= |vs|
    ensures (exists i :: 0 <= i < n && FaultsIn(vs[i]) && forall j :: 0 <= j < i ==> IsRef(vs[j])) <==>
      (FaultsIn(vs[0])
       || (IsRef(vs[0]) && var r := vs[1..];
           exists i :: 0 <= i < n - 1 && FaultsIn(r[i]) && forall j :: 0 <= j < i ==> IsRef(r[j])))
    ensures var r := vs[1..];
      (forall i :: 0 <= i < n ==> IsRef(vs[i])) <==> IsRef(vs[0]) && forall i :: 0 <= i < n - 1 ==> IsRef(r[i])
  {
    hide IsRef, FaultsIn;
    var r := vs[1..];
    if i :| 0 <= i < n && FaultsIn(vs[i]) && (forall j :: 0 <= j < i ==> IsRef(vs[j])) {
      if i > 0 {
        assert r[i - 1] == vs[i];
        assert IsRef(vs[0]);
        forall j | 0 <= j < i - 1 ensures IsRef(r[j]) { assert r[j] == vs[j + 1]; }
      }
    }
    if IsRef(vs[0]) {
      if i :| 0 <= i < n - 1 && FaultsIn(r[i]) && (forall j :: 0 <= j < i ==> IsRef(r[j])) {
        assert vs[i + 1] == r[i];
        forall j | 0 <= j < i + 1 ensures IsRef(vs[j]) { if j > 0 { assert r[j - 1] == vs[j]; } }
      }
    }
    if forall i :: 0 <= i < n ==> IsRef(vs[i]) {
      forall i | 0 <= i < n - 1 ensures IsRef(r[i]) { assert r[i] == vs[i + 1]; }
    }
    if IsRef(vs[0]) && forall i :: 0 <= i < n - 1 ==> IsRef(r[i]) {
      forall i | 0 <= i < n ensures IsRef(vs[i]) { if i > 0 { assert vs[i] == r[i - 1]; } }
    }
  }

  lemma {:induction false} RefOutcome(b: Blob, gen: Uint16)
    requires Items(b).Some? && Items(b).value != []
    ensures var r, v := DecodeRef(b, gen), Items(b).value[0];
      && (r.Ok? <==> IsRef(v)) && (r.Panic? <==> FaultsIn(v))
      && (r.Ok? ==> |v| <= |b| && r.value.1 == b[|v|..])
    decreases |b|, 1
  {
    hide Raw.Split, DecodeNode, IsNode, Faults, Items;
    FirstItem(b);
    SameNode(b, Items(b).value[0]);
    DecodeOutcome(b, None, gen);
  }

  /** Only the list counts, not what follows it. */
  lemma SameNode(b: Blob, v: Blob)
    requires Raw.Split(b).Piece? && Raw.Split(v) == Raw.Split(b).(rest := [])
    ensures (IsNode(b) <==> IsNode(v)) && (Faults(b) <==> Faults(v))
  {
    hide Raw.Split, Items, IsString, KeyOf, IsRef, FaultsIn, Expand;
  }

  // --- some bytes worth having ---

  /** A node whose key is the empty string: decoding fails on it. */
  lemma EmptyKeyFaults(hash: Option<Digest>, gen: Uint16)
    ensures DecodeNode(hash, [0xC2, 0x80, 0x80], gen) == Panic
  {
    hide DecodeNode;
    var b := [0xC2, 0x80, 0x80];
    TwoItems([0x80], [0x80]);
    assert Raw.Split(b).content == [0x80] + [0x80];
    assert Raw.Split([0x80]).content == [];
    DecodeOutcome(b, hash, gen);
  }

  /** So does one whose second item is a list that is cut short inside. */
  lemma BrokenTailFaults(hash: Option<Digest>, gen: Uint16)
    ensures DecodeNode(hash, [0xC3, 0x80, 0xC1, 0x81], gen) == Panic
  {
    hide DecodeNode;
    var b := [0xC3, 0x80, 0xC1, 0x81];
    TwoItems([0x80], [0xC1, 0x81]);
    assert Raw.Split(b).content == [0x80] + [0xC1, 0x81];
    assert Raw.Split([0x80]).content == [];
    DecodeOutcome(b, hash, gen);
  }

  lemma TwoItems(x: Blob, y: Blob)
    requires Raw.Split(x).Piece? && Raw.Split(x).rest == [] && Raw.Split(y).Piece? && Raw.Split(y).rest == []
    requires Raw.ReadKind(x + y) == Raw.ReadKind(x)
    ensures Items(x + y) == Some([x, y])
  {
    hide Raw.ReadKind;
    var h, k := Raw.ReadKind(x), Raw.ReadKind(y);
    assert |x[h.tag + h.size..]| == 0 && |y[k.tag + k.size..]| == 0;
    assert h.tag + h.size == |x| && k.tag + k.size == |y|;
    assert y[|y|..] == [] && y[..|y|] == y;
    assert Items(y) == Some([y] + []) && [y] + [] == [y];
    var b := x + y;
    assert b[..|x|] == x && b[|x|..] == y;
    assert |Raw.Split(x).rest| < |x| == |b| - |y|;
    assert Raw.ReadKind(b) == h;
    assert b[h.tag + h.size..] == y;
    assert Items(b) == Some([x] + [y]) && [x] + [y] == [x, y];
  }

  /** A node with no key that refers to `d` only. */
  function LinkValue(d: Digest): Rlp.Value { Rlp.Lst([Rlp.Str([0x00]), Rlp.Str(d)]) }

  function Link(d: Digest): Blob { Rlp.Encode(LinkValue(d)) }

  lemma DecodeLink(hash: Option<Digest>, d: Digest, gen: Uint16)
    ensures DecodeNode(hash, Link(d), gen) == Ok(Short([], HashRef(d), Flag(hash, gen, false)))
  {
    hide Raw.Split, Rlp.Encode, Rlp.EncodeAll, Raw.Count;
    var key, ref := Rlp.Str([0x00]), Rlp.Str(d);
    LinkSize(d);
    EncodeTwo(key, ref);
    Raw.SplitEncode(LinkValue(d), []);
    assert Link(d) + [] == Link(d);
    Raw.CountEncodeAll([key, ref]);
    Raw.SplitEncode(key, Rlp.Encode(ref) + []);
    Raw.SplitEncode(ref, []);
    assert Expand([0x00]) == [];
    assert DecodeRef(Rlp.Encode(ref) + [], gen) == Ok((HashRef(d), []));
    assert DecodeShort(hash, Rlp.EncodeAll([key, ref]), gen) == Ok(Short([], HashRef(d), Flag(hash, gen, false)));
  }

  lemma LinkSize(d: Digest)
    ensures |Link(d)| < TWO64
  {
    hide DecodeNode;
    var key, ref := Rlp.Str([0x00]), Rlp.Str(d);
    EncodeTwo(key, ref);
    assert |Rlp.Encode(key)| == 1 && |Rlp.Encode(ref)| == 33;
  }
}
