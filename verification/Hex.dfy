/** Nibble keys and the compact (hex-prefix) encoding of fast/encoding.go. */
module Hex {
  import opened Bytes

  /** A nibble, or the terminator 16 that closes every full key. */
  type Nibble = n: int | 0 <= n <= 16
  type Key = seq<Nibble>

  predicate HasTerm(k: Key) { |k| > 0 && k[|k| - 1] == 16 }

  /** Only proper nibbles, no terminator. */
  predicate Plain(k: Key) { forall i :: 0 <= i < |k| ==> k[i] < 16 }

  /** Proper nibbles closed by one terminator. */
  predicate Terminated(k: Key) { HasTerm(k) && Plain(k[..|k| - 1]) }

  /** What a short node's key may look like. */
  predicate ValidHex(k: Key) { Plain(k) || Terminated(k) }

  /** The two nibbles of every byte, high one first. */
  function Nibbles(b: Blob): (k: Key)
    ensures Plain(k) && |k| == 2 * |b|
  {
    if b == [] then [] else [b[0] / 16, b[0] % 16] + Nibbles(b[1..])
  }

  function KeyHex(b: Blob): (k: Key)
    ensures Terminated(k)
  {
    Nibbles(b) + [16]
  }

  /** One byte from two nibbles. */
  function Join(hi: int, lo: int): Byte { (16 * hi + lo) % 256 }

  /** Pairs of nibbles packed into bytes; a last odd nibble is dropped. */
  function Pack(k: Key): (b: Blob)
    ensures |b| == |k| / 2
  {
    if |k| < 2 then [] else [Join(k[0], k[1])] + Pack(k[2..])
  }

  /** Hex-prefix encoding: flags and parity in the first nibble, Yellow Paper appendix C. */
  function Compact(k: Key): (c: Blob)
    ensures |c| > 0
  {
    var t := if HasTerm(k) then 2 else 0;
    var body := if HasTerm(k) then k[..|k| - 1] else k;
    if |body| % 2 == 1 then [Join(t + 1, body[0])] + Pack(body[1..]) else [Join(t, 0)] + Pack(body)
  }

  /** Inverse direction. The source indexes the first nibble, so it needs a non-empty input. */
  function Expand(c: Blob): (k: Key)
    requires |c| > 0
  {
    Unflag(Nibbles(c))
  }

  /** Drops the flag nibble (and its padding) and restores the terminator it announces. */
  function Unflag(base: Key): (k: Key)
    requires |base| >= 2
  {
    var rest := base[2 - base[0] % 2..];
    if base[0] >= 2 then rest + [16] else rest
  }

  lemma {:induction false} PackNibbles(b: Blob)
    ensures Pack(Nibbles(b)) == b
  {
    if b != [] {
      PackNibbles(b[1..]);
      assert Nibbles(b)[2..] == Nibbles(b[1..]);
    }
  }

  lemma {:induction false} NibblesPack(k: Key)
    requires Plain(k) && |k| % 2 == 0
    ensures Nibbles(Pack(k)) == k
  {
    hide Join;
    if k != [] {
      JoinSplit(k[0], k[1]);
      NibblesPack(k[2..]);
      Cons(Join(k[0], k[1]), Pack(k[2..]));
      assert k == [k[0], k[1]] + k[2..];
    }
  }

  lemma {:induction false} NibblesSnoc(b: Blob, x: Byte)
    ensures Nibbles(b + [x]) == Nibbles(b) + [x / 16, x % 16]
  {
    if b == [] {
    } else {
      NibblesSnoc(b[1..], x);
      assert (b + [x])[1..] == b[1..] + [x];
    }
  }

  lemma {:induction false} PackSnoc(k: Key, hi: Nibble, lo: Nibble)
    requires |k| % 2 == 0
    ensures Pack(k + [hi, lo]) == Pack(k) + [Join(hi, lo)]
  {
    if k == [] {
    } else {
      PackSnoc(k[2..], hi, lo);
      assert (k + [hi, lo])[2..] == k[2..] + [hi, lo];
    }
  }

  lemma JoinSplit(hi: Nibble, lo: Nibble)
    requires hi < 16 && lo < 16
    ensures Join(hi, lo) / 16 == hi && Join(hi, lo) % 16 == lo
  {}

  lemma CompactNibbles(t: Nibble, x: Nibble, body: Key)
    requires t < 4 && x < 16 && Plain(body) && |body| % 2 == 0
    ensures Nibbles([Join(t, x)] + Pack(body)) == [t, x] + body
  {
    hide Join, Pack;
    JoinSplit(t, x);
    NibblesPack(body);
    Cons(Join(t, x), Pack(body));
  }

  lemma UnflagBody(head: Key, body: Key)
    requires |head| > 0 && |head| == 2 - head[0] % 2 && |head + body| >= 2
    ensures Unflag(head + body) == if head[0] >= 2 then body + [16] else body
  {
    assert (head + body)[0] == head[0];
    assert (head + body)[|head|..] == body;
  }

  /** A key without its terminator. */
  function Body(k: Key): Key { if HasTerm(k) then k[..|k| - 1] else k }

  /** The flag nibble, padded to a full byte when the key has an even number of nibbles. */
  function FlagNibbles(k: Key): Key {
    var t := if HasTerm(k) then 2 else 0;
    if |Body(k)| % 2 == 1 then [t + 1] else [t, 0]
  }

  lemma CompactShape(k: Key)
    requires ValidHex(k)
    ensures Nibbles(Compact(k)) == FlagNibbles(k) + Body(k)
  {
    hide Nibbles, Pack, Join;
    var body, f := Body(k), FlagNibbles(k);
    assert Plain(body);
    if |body| % 2 == 1 {
      CompactNibbles(f[0], body[0], body[1..]);
      assert [f[0], body[0]] + body[1..] == f + body;
    } else {
      CompactNibbles(f[0], 0, body);
    }
  }

  /** Expanding a compacted key gives the key back, for leaf and extension keys of either parity. */
  lemma CompactRoundTrip(k: Key)
    requires ValidHex(k)
    ensures Expand(Compact(k)) == k
  {
    hide Compact, Nibbles, Unflag, FlagNibbles;
    CompactShape(k);
    FlagShape(k);
    UnflagBody(FlagNibbles(k), Body(k));
  }

  lemma FlagShape(k: Key)
    ensures var f := FlagNibbles(k);
      && (|f| == 1 || |f| == 2) && f[0] % 2 == 2 - |f| && (f[0] >= 2 <==> HasTerm(k)) && Plain(f)
    ensures HasTerm(k) ==> Body(k) + [16] == k
  {}

  /** Distinct keys get distinct compact forms. */
  lemma CompactInjective(k1: Key, k2: Key)
    requires ValidHex(k1) && ValidHex(k2) && Compact(k1) == Compact(k2)
    ensures k1 == k2
  {
    CompactRoundTrip(k1);
    CompactRoundTrip(k2);
  }

  lemma KeyHexInjective(a: Blob, b: Blob)
    requires KeyHex(a) == KeyHex(b)
    ensures a == b
  {
    assert Nibbles(a) == KeyHex(a)[..|KeyHex(a)| - 1];
    assert Nibbles(b) == KeyHex(b)[..|KeyHex(b)| - 1];
    PackNibbles(a);
    PackNibbles(b);
  }

  // --- the buffer-filling loops ---

  method KeybytesToHex(str: Blob) returns (nibbles: Key)
    ensures nibbles == KeyHex(str)
  {
    var buf := new Nibble[2 * |str| + 1](_ => 0);
    var i := 0;
    while i < |str|
      invariant 0 <= i <= |str|
      invariant buf[..2 * i] == Nibbles(str[..i])
    {
      buf[2 * i] := str[i] / 16;
      buf[2 * i + 1] := str[i] % 16;
      NibblesSnoc(str[..i], str[i]);
      assert str[..i + 1] == str[..i] + [str[i]];
      i := i + 1;
    }
    assert str[..i] == str;
    buf[2 * |str|] := 16;
    nibbles := buf[..];
  }

  method DecodeNibbles(nibbles: Key, bytes: array<Byte>, start: nat)
    requires Plain(nibbles) && |nibbles| % 2 == 0
    requires start + |nibbles| / 2 == bytes.Length
    modifies bytes
    ensures bytes[..start] == old(bytes[..start])
    ensures bytes[start..] == Pack(nibbles)
  {
    var bi, ni := start, 0;
    ghost var i := 0;
    while ni < |nibbles|
      invariant 0 <= i && ni == 2 * i <= |nibbles| && bi == start + i
      invariant forall j :: 0 <= j < start ==> bytes[j] == old(bytes[j])
      invariant bytes[start..bi] == Pack(nibbles[..ni])
    {
      ghost var done := bytes[start..bi];
      bytes[bi] := Join(nibbles[ni], nibbles[ni + 1]);
      PackSnoc(nibbles[..ni], nibbles[ni], nibbles[ni + 1]);
      assert nibbles[..ni + 2] == nibbles[..ni] + [nibbles[ni], nibbles[ni + 1]];
      assert bytes[start..bi + 1] == done + [bytes[bi]];
      bi, ni, i := bi + 1, ni + 2, i + 1;
    }
    assert nibbles[..ni] == nibbles && bi == bytes.Length;
  }

  method HexToCompact(key: Key) returns (c: Blob)
    requires ValidHex(key)
    ensures c == Compact(key)
  {
    var hex := key;
    var terminator: Nibble := 0;
    if HasTerm(hex) {
      terminator := 2;
      hex := hex[..|hex| - 1];
    }
    assert Plain(hex);
    var buf := new Byte[|hex| / 2 + 1](_ => 0);
    buf[0] := Join(terminator, 0);
    if |hex| % 2 == 1 {
      buf[0] := Join(terminator + 1, hex[0]);
      hex := hex[1..];
    }
    DecodeNibbles(hex, buf, 1);
    assert buf[..] == buf[..1] + buf[1..];
    c := buf[..];
  }

  /** Key bytes of a full key; odd lengths make the source panic. */
  method HexToKeybytes(key: Key) returns (b: Blob)
    requires ValidHex(key) && (if HasTerm(key) then |key| % 2 == 1 else |key| % 2 == 0)
    ensures b == Pack(if HasTerm(key) then key[..|key| - 1] else key)
    ensures HasTerm(key) ==> KeyHex(b) == key
  {
    var hex := if HasTerm(key) then key[..|key| - 1] else key;
    var buf := new Byte[|hex| / 2](_ => 0);
    DecodeNibbles(hex, buf, 0);
    b := buf[..];
    NibblesPack(hex);
  }

  /** Length of the longest common prefix. */
  function PrefixLen(a: Key, b: Key): (n: nat)
    ensures n <= |a| && n <= |b| && a[..n] == b[..n]
    ensures n < |a| && n < |b| ==> a[n] != b[n]
  {
    if a == [] || b == [] || a[0] != b[0] then 0
    else
      var m := PrefixLen(a[1..], b[1..]);
      assert a[..m + 1] == [a[0]] + a[1..][..m] && b[..m + 1] == [b[0]] + b[1..][..m];
      m + 1
  }

  method ComputePrefixLen(a: Key, b: Key) returns (i: nat)
    ensures i == PrefixLen(a, b)
  {
    i := 0;
    var length := if |b| < |a| then |b| else |a|;
    while i < length && a[i] == b[i]
      invariant i <= length && a[..i] == b[..i]
    {
      i := i + 1;
    }
    PrefixLenUnique(a, b, i);
  }

  lemma PrefixLenUnique(a: Key, b: Key, n: nat)
    requires n <= |a| && n <= |b| && a[..n] == b[..n]
    requires n < |a| && n < |b| ==> a[n] != b[n]
    ensures n == PrefixLen(a, b)
  {
    if n > 0 {
      assert a[0] == a[..n][0] == b[..n][0] == b[0];
      assert a[1..][..n - 1] == a[..n][1..] == b[..n][1..] == b[1..][..n - 1];
      PrefixLenUnique(a[1..], b[1..], n - 1);
    }
  }
}
