/** Splitting raw RLP without decoding it (process/raw.go). */
module RlpRaw {
  import opened Bytes
  import opened Rlp

  datatype RawHead = RawHead(kind: Kind, tag: nat, size: nat) | RawErr(error: Error)

  function Limit(k: Kind, tag: nat, size: nat, b: Blob): (r: RawHead)
    requires tag <= |b|
    ensures r.RawHead? ==> r == RawHead(k, tag, size) && tag + size <= |b|
  {
    if size > |b| - tag then RawErr(ValueTooLarge) else RawHead(k, tag, size)
  }

  /** A size of `slen` bytes behind the tag byte. */
  function ReadSize(k: Kind, b: Blob, slen: nat): (r: RawHead)
    requires 0 < slen && b != []
    ensures r.RawHead? ==> r.tag == 1 + slen && r.tag + r.size <= |b|
  {
    if slen > |b| - 1 then RawErr(UnexpectedEOF)
    else if FromBig(b[1..1 + slen]) < 56 || b[1] == 0 then RawErr(CanonSize)
    else Limit(k, 1 + slen, FromBig(b[1..1 + slen]), b)
  }

  /** A single byte below 0x80 is its own content: it has no tag. */
  function ReadKind(b: Blob): (r: RawHead)
    ensures r.RawHead? ==> 0 < r.tag + r.size <= |b|
  {
    if b == [] then RawErr(UnexpectedEOF)
    else if b[0] < 0x80 then RawHead(Byte, 0, 1)
    else if b[0] < 0xB8 then
      if b[0] == 0x81 && |b| > 1 && b[1] < 128 then RawErr(CanonSize)
      else Limit(String, 1, b[0] - 0x80, b)
    else if b[0] < 0xC0 then ReadSize(String, b, b[0] - 0xB7)
    else if b[0] < 0xF8 then Limit(List, 1, b[0] - 0xC0, b)
    else ReadSize(List, b, b[0] - 0xF7)
  }

  datatype Piece = Piece(kind: Kind, content: Blob, rest: Blob) | Fail(error: Error)

  function Split(b: Blob): (r: Piece)
    ensures r.Piece? ==> |r.content| <= |b| && |r.rest| < |b|
    ensures r.Piece? && r.kind == List ==> |r.content| < |b|
  {
    match ReadKind(b)
    case RawErr(e) => Fail(e)
    case RawHead(k, tag, size) => Piece(k, b[tag..tag + size], b[tag + size..])
  }

  function SplitString(b: Blob): (r: Piece)
    ensures r.Piece? ==> |r.rest| < |b|
  {
    var p := Split(b);
    if p.Piece? && p.kind == List then Fail(ExpectedString) else p
  }

  function SplitList(b: Blob): (r: Piece)
    ensures r.Piece? ==> |r.content| < |b| && r.kind == List
  {
    var p := Split(b);
    if p.Piece? && p.kind != List then Fail(ExpectedList) else p
  }

  /** Number of consecutive values in `b`; `None` when a header is malformed. */
  function Count(b: Blob): Option<nat>
    decreases |b|
  {
    if b == [] then Some(0)
    else
      match ReadKind(b)
      case RawErr(_) => None
      case RawHead(_, tag, size) =>
        match Count(b[tag + size..])
        case None => None
        case Some(n) => Some(n + 1)
  }

  method CountValues(buf: Blob) returns (n: nat, err: bool)
    ensures !err ==> Count(buf) == Some(n)
    ensures err ==> Count(buf) == None && n == 0
  {
    var b := buf;
    n, err := 0, false;
    while |b| > 0
      invariant match Count(b) { case None => Count(buf) == None case Some(m) => Count(buf) == Some(n + m) }
      decreases |b|
    {
      var h := ReadKind(b);
      if h.RawErr? { return 0, true; }
      b := b[h.tag + h.size..];
      n := n + 1;
    }
  }

  // --- agreement with the encoder ---

  /** A string of one byte that should have been written as that byte alone. */
  predicate LoneByte(b: Blob) { |b| > 1 && b[0] == 0x81 && b[1] < 0x80 }

  /** The raw reader accepts exactly the headers that the stream reader accepts, with the same
      extent, apart from a lone byte with a header, which the stream reader refuses only when
      its content is read. */
  lemma RawAgrees(b: Blob, top: bool)
    ensures ReadKind(b).RawHead? <==> ReadHead(b, top).Head? && !LoneByte(b)
    ensures ReadKind(b).RawHead? ==>
      var r, h := ReadKind(b), ReadHead(b, top);
      r.kind == h.kind && r.tag + r.size == h.tag + h.size && (h.kind != Byte ==> r.tag == h.tag)
  {
    if b != [] && (0xB8 <= b[0] < 0xC0 || 0xF8 <= b[0]) {
      var ll := if b[0] < 0xC0 then b[0] - 0xB7 else b[0] - 0xF7;
      if ll < |b| {
        var sz := b[1..1 + ll];
        assert sz[0] == b[1];
        assert |sz| == 1 ==> FromBig(sz) == sz[0];
      }
    }
  }

  /** The content bytes of an encoded value: a string's own bytes, a list's encoded items. */
  function Content(v: Value): Blob {
    match v case Str(s) => s case Lst(items) => EncodeAll(items)
  }

  function KindOf(v: Value): Kind {
    match v
    case Str(s) => if |s| == 1 && s[0] < 0x80 then Byte else String
    case Lst(_) => List
  }

  /** Splitting off an encoded value recovers its kind, its content and what follows. */
  lemma SplitEncode(v: Value, rest: Blob)
    requires |Encode(v)| < TWO64
    ensures Split(Encode(v) + rest) == Piece(KindOf(v), Content(v), rest)
  {
    if KindOf(v) == Byte {
      var b := Encode(v) + rest;
      assert b[0] == v.bytes[0];
      assert b[0..1] == v.bytes && b[1..] == rest;
    } else {
      SplitHeaded(v, rest);
    }
  }

  lemma SplitHeaded(v: Value, rest: Blob)
    requires |Encode(v)| < TWO64 && KindOf(v) != Byte
    ensures Split(Encode(v) + rest) == Piece(KindOf(v), Content(v), rest)
  {
    hide ReadHead, ReadKind;
    var b, c := Encode(v) + rest, Content(v);
    var h := Header(KindBase(KindOf(v)), |c|);
    assert Encode(v) == h + c;
    Assoc(h, c, rest);
    HeaderReads(KindOf(v), |c|, c + rest, true);
    assert !LoneByte(b) by { NotLone(v, h, c, rest); }
    RawAgrees(b, true);
    assert b[|h|..|h| + |c|] == c && b[|h| + |c|..] == rest;
  }

  lemma NotLone(v: Value, h: Blob, c: Blob, rest: Blob)
    requires KindOf(v) != Byte && c == Content(v) && h == Header(KindBase(KindOf(v)), |c|)
    requires |h + c| < TWO64
    ensures !LoneByte(h + (c + rest))
  {
    if |c| >= 56 { SizeFits(|c|); }
    if |c| == 1 { assert (h + (c + rest))[1] == c[0]; }
  }

  lemma ReadKindEncode(v: Value, rest: Blob)
    requires |Encode(v)| < TWO64
    ensures ReadKind(Encode(v) + rest).RawHead?
    ensures ReadKind(Encode(v) + rest).tag + ReadKind(Encode(v) + rest).size == |Encode(v)|
  {
    SplitEncode(v, rest);
    var b := Encode(v) + rest;
    var r := ReadKind(b);
    assert |b[r.tag + r.size..]| == |rest|;
  }

  /** Counting the values of a concatenation of encodings finds every boundary. */
  lemma {:induction false} CountEncodeAll(items: seq<Value>)
    requires |EncodeAll(items)| < TWO64
    ensures Count(EncodeAll(items)) == Some(|items|)
  {
    if items != [] {
      var e, rest := Encode(items[0]), EncodeAll(items[1..]);
      ReadKindEncode(items[0], rest);
      Cut(e, rest);
      CountEncodeAll(items[1..]);
    }
  }
}
