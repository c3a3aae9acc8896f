/** Recursive Length Prefix: the recursive encoding of Yellow Paper appendix B, the
    canonical parser, and the proof that they are inverse to each other. */
module Rlp {
  import opened Bytes

  /** A generic RLP value: what the decoder builds for an empty interface. */
  datatype Value = Str(bytes: Blob) | Lst(items: seq<Value>)

  datatype Kind = Byte | String | List

  datatype Error =
    | EOF | UnexpectedEOF | EOL | CanonSize | ElemTooLarge | ValueTooLarge
    | ExpectedString | ExpectedList | MoreThanOneValue | NotInList | NotAtEOL

  // --- sizes in minimal big-endian form ---

  function BigEndian(n: nat): (b: Blob)
    ensures |b| > 0
  {
    if n < 256 then [n] else BigEndian(n / 256) + [n % 256]
  }

  function FromBig(b: Blob): nat {
    if b == [] then 0 else 256 * FromBig(b[..|b| - 1]) + b[|b| - 1]
  }

  function Pow256(k: nat): (p: nat)
    ensures p > 0
  {
    if k == 0 then 1 else 256 * Pow256(k - 1)
  }

  lemma Pow256Eight()
    ensures Pow256(8) == TWO64
  {
    assert Pow256(4) == 256 * (256 * (256 * 256));
    assert Pow256(8) == 256 * (256 * (256 * (256 * Pow256(4))));
  }

  lemma {:induction false} BigEndianInverse(n: nat)
    ensures FromBig(BigEndian(n)) == n
    ensures n > 0 ==> BigEndian(n)[0] != 0
  {
    if n >= 256 {
      BigEndianInverse(n / 256);
      var b := BigEndian(n);
      assert b[..|b| - 1] == BigEndian(n / 256);
    }
  }

  lemma {:induction false} FromBigInverse(b: Blob)
    requires |b| > 0 && b[0] != 0
    ensures FromBig(b) > 0 && BigEndian(FromBig(b)) == b
  {
    var init, last := b[..|b| - 1], b[|b| - 1];
    assert b == init + [last];
    if init != [] {
      FromBigInverse(init);
      assert FromBig(b) / 256 == FromBig(init) && FromBig(b) % 256 == last;
    }
  }

  lemma {:induction false} FromBigBound(b: Blob)
    ensures FromBig(b) < Pow256(|b|)
  {
    if b != [] { FromBigBound(b[..|b| - 1]); }
  }

  lemma {:induction false} BigEndianLength(n: nat, k: nat)
    requires k > 0 && n < Pow256(k)
    ensures |BigEndian(n)| <= k
  {
    if n >= 256 {
      assert k > 1;
      BigEndianLength(n / 256, k - 1);
    }
  }

  lemma SizeFits(n: nat)
    requires n < TWO64
    ensures |BigEndian(n)| <= 8
  {
    Pow256Eight();
    BigEndianLength(n, 8);
  }

  // --- encoding ---

  /** The header of a payload of `n` bytes; `base` is 0x80 for strings and 0xC0 for lists.
      Past 55 bytes the tag counts the size bytes that follow. */
  function Header(base: Byte, n: nat): (h: Blob)
    ensures |h| > 0
  {
    if n < 56 then [Wrap(base, n)] else [Wrap(base, 55 + |BigEndian(n)|)] + BigEndian(n)
  }

  function Wrap(base: int, n: int): Byte { (base + n) % 256 }

  function EncodeStr(s: Blob): (b: Blob)
    ensures |b| > 0
  {
    if |s| == 1 && s[0] < 0x80 then s else Header(0x80, |s|) + s
  }

  function Encode(v: Value): (b: Blob)
    ensures |b| > 0
    decreases v, 1
  {
    match v
    case Str(s) => EncodeStr(s)
    case Lst(items) => var p := EncodeAll(items); Header(0xC0, |p|) + p
  }

  function EncodeAll(items: seq<Value>): Blob
    decreases items, 0
  {
    if items == [] then [] else Encode(items[0]) + EncodeAll(items[1..])
  }

  lemma {:induction false} EncodeAllAppend(a: seq<Value>, b: seq<Value>)
    ensures EncodeAll(a + b) == EncodeAll(a) + EncodeAll(b)
  {
    if a == [] {
      assert a + b == b;
    } else {
      var x := Encode(a[0]);
      calc {
        EncodeAll(a + b);
        { assert (a + b)[0] == a[0] && (a + b)[1..] == a[1..] + b; }
        x + EncodeAll(a[1..] + b);
        { EncodeAllAppend(a[1..], b); }
        x + (EncodeAll(a[1..]) + EncodeAll(b));
        { Assoc(x, EncodeAll(a[1..]), EncodeAll(b)); }
        (x + EncodeAll(a[1..])) + EncodeAll(b);
      }
    }
  }

  // --- reading one header ---

  datatype Head = Head(kind: Kind, tag: nat, size: nat) | BadHead(error: Error)

  /** The error for running out of room: the enclosing list's, or the whole input's. */
  function TooLarge(top: bool): Error { if top then ValueTooLarge else ElemTooLarge }

  /** Reads the header at the start of `b`, the bytes still available to the value:
      the rest of the enclosing list, or of the input when `top`. */
  function ReadHead(b: Blob, top: bool): (h: Head)
    ensures h.Head? ==> 0 < h.tag && h.tag + h.size <= |b|
    ensures h.Head? && h.kind == Byte ==> h.tag == 1 && h.size == 0
    ensures h.BadHead? ==> h.error != EOL
  {
    if b == [] then BadHead(if top then EOF else ElemTooLarge)
    else if b[0] < 0x80 then Head(Byte, 1, 0)
    else if b[0] < 0xB8 then Fit(String, 1, b[0] - 0x80, b, top)
    else if b[0] < 0xC0 then ReadLong(String, b[0] - 0xB7, b, top)
    else if b[0] < 0xF8 then Fit(List, 1, b[0] - 0xC0, b, top)
    else ReadLong(List, b[0] - 0xF7, b, top)
  }

  function Fit(k: Kind, tag: nat, size: nat, b: Blob, top: bool): (h: Head)
    requires 0 < tag <= |b|
    ensures h.Head? ==> h == Head(k, tag, size) && tag + size <= |b|
  {
    if size > |b| - tag then BadHead(TooLarge(top)) else Head(k, tag, size)
  }

  function ReadLong(k: Kind, ll: nat, b: Blob, top: bool): (h: Head)
    requires 0 < ll && b != []
    ensures h.Head? ==> h.tag == 1 + ll && h.tag + h.size <= |b| && h.kind == k
  {
    if ll > |b| - 1 then BadHead(TooLarge(top))
    else if ll > 1 && b[1] == 0 then BadHead(CanonSize)
    else if FromBig(b[1..1 + ll]) < 56 then BadHead(CanonSize)
    else Fit(k, 1 + ll, FromBig(b[1..1 + ll]), b, top)
  }

  function KindBase(k: Kind): Byte { if k == List then 0xC0 else 0x80 }

  lemma LongReads(k: Kind, n: nat, b: Blob, top: bool)
    requires 56 <= n < TWO64 && b != [] && 1 + |BigEndian(n)| + n <= |b|
    requires b[1..1 + |BigEndian(n)|] == BigEndian(n)
    ensures ReadLong(k, |BigEndian(n)|, b, top) == Head(k, 1 + |BigEndian(n)|, n)
  {
    BigEndianInverse(n);
    assert b[1] == BigEndian(n)[0];
  }

  /** A header in front of enough bytes reads back as itself. */
  lemma HeaderReads(k: Kind, n: nat, rest: Blob, top: bool)
    requires k != Byte && n < TWO64 && n <= |rest|
    ensures ReadHead(Header(KindBase(k), n) + rest, top) == Head(k, |Header(KindBase(k), n)|, n)
  {
    hide BigEndian, ReadLong;
    var h := Header(KindBase(k), n);
    var b := h + rest;
    assert b[0] == h[0];
    if n >= 56 {
      SizeFits(n);
      assert b[1..|h|] == h[1..] == BigEndian(n);
      LongReads(k, n, b, top);
    }
  }

  lemma LongSize(k: Kind, ll: nat, b: Blob, top: bool)
    requires 0 < ll <= 8 && b != [] && ReadLong(k, ll, b, top).Head?
    requires b[0] == KindBase(k) + 55 + ll
    ensures ReadLong(k, ll, b, top).size < TWO64
    ensures b[..1 + ll] == Header(KindBase(k), ReadLong(k, ll, b, top).size)
  {
    var sz := b[1..1 + ll];
    assert |sz| == 1 ==> FromBig(sz) == sz[0];
    FromBigInverse(sz);
    FromBigBound(sz);
    Pow256Mono(|sz|, 8);
    Pow256Eight();
    assert b[..1 + ll] == [b[0]] + sz;
  }

  /** An accepted header is the one the encoder writes. */
  lemma ReadIsHeader(b: Blob, top: bool)
    requires ReadHead(b, top).Head? && ReadHead(b, top).kind != Byte
    ensures ReadHead(b, top).size < TWO64
    ensures b[..ReadHead(b, top).tag] == Header(KindBase(ReadHead(b, top).kind), ReadHead(b, top).size)
  {
    if 0xB8 <= b[0] < 0xC0 {
      LongSize(String, b[0] - 0xB7, b, top);
    } else if 0xF8 <= b[0] {
      LongSize(List, b[0] - 0xF7, b, top);
    } else {
      assert b[..1] == [b[0]];
    }
  }

  lemma {:induction false} Pow256Mono(a: nat, b: nat)
    requires a <= b
    ensures Pow256(a) <= Pow256(b)
    decreases b
  {
    if a < b { Pow256Mono(a, b - 1); }
  }

  // --- parsing ---

  datatype Parsed<+T> = Ok(value: T, len: nat) | Err(error: Error)

  /** Parses the value at the start of `b`. */
  function Parse(b: Blob, top: bool): (r: Parsed<Value>)
    ensures r.Ok? ==> 0 < r.len <= |b|
    ensures r.Err? ==> r.error != EOL
    decreases |b|, 0
  {
    match ReadHead(b, top)
    case BadHead(e) => Err(e)
    case Head(Byte, _, _) => Ok(Str(b[..1]), 1)
    case Head(String, tag, size) =>
      if size == 1 && b[tag] < 0x80 then Err(CanonSize) else Ok(Str(b[tag..tag + size]), tag + size)
    case Head(List, tag, size) =>
      match ParseAll(b[tag..tag + size])
      case Err(e) => Err(e)
      case Ok(items, _) => Ok(Lst(items), tag + size)
  }

  /** Parses all of `b` as consecutive values. */
  function ParseAll(b: Blob): (r: Parsed<seq<Value>>)
    ensures r.Err? ==> r.error != EOL
    decreases |b|, 1
  {
    if b == [] then Ok([], 0)
    else
      match Parse(b, false)
      case Err(e) => Err(e)
      case Ok(v, n) =>
        match ParseAll(b[n..])
        case Err(e) => Err(e)
        case Ok(vs, m) => Ok([v] + vs, n + m)
  }

  /** What `DecodeBytes` into an empty interface yields: one value and nothing after it. */
  function Decode(b: Blob): (r: Parsed<Value>)
  {
    match Parse(b, true)
    case Err(e) => Err(e)
    case Ok(v, n) => if n < |b| then Err(MoreThanOneValue) else Ok(v, n)
  }

  /** Whatever is accepted is exactly the encoding of the result. */
  lemma {:induction false} ParseSound(b: Blob, top: bool)
    requires Parse(b, top).Ok?
    ensures b[..Parse(b, top).len] == Encode(Parse(b, top).value)
    decreases |b|, 0
  {
    hide Header;
    var h := ReadHead(b, top);
    if h.kind != Byte {
      ReadIsHeader(b, top);
      var content := b[h.tag..h.tag + h.size];
      assert b[..h.tag + h.size] == b[..h.tag] + content;
      if h.kind == List {
        ParseAllSound(content);
        assert Encode(Parse(b, top).value) == Header(0xC0, |content|) + content;
      } else {
        assert Parse(b, top).value == Str(content);
        assert EncodeStr(content) == Header(0x80, |content|) + content;
      }
    }
  }

  lemma {:induction false} ParseAllSound(b: Blob)
    requires ParseAll(b).Ok?
    ensures b == EncodeAll(ParseAll(b).value)
    decreases |b|, 1
  {
    if b != [] {
      var Ok(v, n) := Parse(b, false);
      ParseSound(b, false);
      ParseAllSound(b[n..]);
      Split(b, n);
      Cons(v, ParseAll(b[n..]).value);
    }
  }

  lemma EncodePieces(items: seq<Value>, i: nat)
    requires i < |items|
    ensures |Encode(items[i])| <= |EncodeAll(items)|
  {
    EncodeAllAppend(items[..i], items[i..]);
    assert items == items[..i] + items[i..];
  }

  lemma ParseStr(s: Blob, rest: Blob, top: bool)
    requires |EncodeStr(s)| < TWO64
    ensures Parse(EncodeStr(s) + rest, top) == Ok(Str(s), |EncodeStr(s)|)
  {
    var b := EncodeStr(s) + rest;
    if |s| == 1 && s[0] < 0x80 {
      assert b[0] == s[0] && b[..1] == s;
    } else {
      var h := Header(0x80, |s|);
      Assoc(h, s, rest);
      HeaderReads(String, |s|, s + rest, top);
      assert b[|h|..|h| + |s|] == s;
    }
  }

  /** Parsing an encoding gives the value back and stops exactly behind it. */
  lemma {:induction false} ParseComplete(v: Value, rest: Blob, top: bool)
    requires |Encode(v)| < TWO64
    ensures Parse(Encode(v) + rest, top) == Ok(v, |Encode(v)|)
    decreases v, 1
  {
    match v
    case Str(s) => ParseStr(s, rest, top);
    case Lst(items) =>
      var p := EncodeAll(items);
      var h := Header(0xC0, |p|);
      var b := h + (p + rest);
      Assoc(h, p, rest);
      HeaderReads(List, |p|, p + rest, top);
      assert b[|h|..|h| + |p|] == p;
      ParseAllComplete(items);
  }

  lemma {:induction false} ParseAllComplete(items: seq<Value>)
    requires |EncodeAll(items)| < TWO64
    ensures ParseAll(EncodeAll(items)) == Ok(items, |EncodeAll(items)|)
    decreases items, 0
  {
    if items != [] {
      var rest := EncodeAll(items[1..]);
      ParseComplete(items[0], rest, false);
      ParseAllComplete(items[1..]);
      Cut(Encode(items[0]), rest);
      assert items == [items[0]] + items[1..];
    }
  }

  /** The codec is a bijection: an input is accepted with result `v` exactly when it is
      the encoding of `v`. */
  lemma DecodeIffEncode(b: Blob, v: Value)
    requires |b| < TWO64
    ensures Decode(b) == Ok(v, |b|) <==> b == Encode(v)
  {
    if Decode(b) == Ok(v, |b|) {
      ParseSound(b, true);
      assert b[..|b|] == b;
    }
    if b == Encode(v) {
      ParseComplete(v, [], true);
      assert b + [] == b;
    }
  }

  /** No encoding is a proper prefix of another, so concatenations split uniquely. */
  lemma EncodePrefixFree(v: Value, w: Value, x: Blob, y: Blob)
    requires |Encode(v)| < TWO64 && |Encode(w)| < TWO64
    requires Encode(v) + x == Encode(w) + y
    ensures v == w && x == y
  {
    ParseComplete(v, x, true);
    ParseComplete(w, y, true);
    assert x == (Encode(v) + x)[|Encode(v)|..];
    assert y == (Encode(w) + y)[|Encode(w)|..];
  }
}
