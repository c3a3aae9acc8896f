/** The two-pass encoder (process/encode.go): string data is collected first, list headers
    are remembered with their offsets and merged in when the output is emitted. */
module RlpEncoder {
  import opened Bytes
  import opened Rlp

  datatype ListHead = ListHead(offset: nat, size: nat)

  function HeadBytes(hs: seq<ListHead>, i: nat): nat
    decreases |hs| - i
  {
    if i >= |hs| then 0 else |Header(0xC0, hs[i].size)| + HeadBytes(hs, i + 1)
  }

  /** From header `i` and string position `pos` on, headers are in order and inside the data. */
  ghost predicate Laid(str: Blob, hs: seq<ListHead>, i: nat, pos: nat) {
    && i <= |hs| && pos <= |str|
    && (forall j :: i <= j < |hs| ==> pos <= hs[j].offset <= |str|)
    && (forall j, k :: i <= j <= k < |hs| ==> hs[j].offset <= hs[k].offset)
  }

  /** The string data in front of header `i`, then that header. */
  function Piece(str: Blob, hs: seq<ListHead>, i: nat, pos: nat): Blob
    requires i < |hs|
  {
    (if pos <= hs[i].offset <= |str| then str[pos..hs[i].offset] else []) + Header(0xC0, hs[i].size)
  }

  /** The output from string position `pos` on, with the headers from `i` on still to come. */
  ghost function Emit(str: Blob, hs: seq<ListHead>, i: nat, pos: nat): Blob
    decreases |hs| - i
  {
    if i >= |hs| then if pos <= |str| then str[pos..] else []
    else Piece(str, hs, i, pos) + Emit(str, hs, i + 1, hs[i].offset)
  }

  /** Deferred sizes count nested headers: the emitted length is known before emitting. */
  lemma {:induction false} EmitLength(str: Blob, hs: seq<ListHead>, i: nat, pos: nat)
    requires Laid(str, hs, i, pos)
    ensures |Emit(str, hs, i, pos)| == |str| - pos + HeadBytes(hs, i)
    decreases |hs| - i
  {
    if i < |hs| { EmitLength(str, hs, i + 1, hs[i].offset); }
  }

  /** Emitting one more piece behind `done`. */
  lemma EmitStep(str: Blob, hs: seq<ListHead>, i: nat, pos: nat, done: Blob)
    requires i < |hs|
    ensures (done + Piece(str, hs, i, pos)) + Emit(str, hs, i + 1, hs[i].offset) == done + Emit(str, hs, i, pos)
  {
    Assoc(done, Piece(str, hs, i, pos), Emit(str, hs, i + 1, hs[i].offset));
  }

  /** Data in front of the next header can be emitted on its own. */
  lemma EmitSkip(str: Blob, hs: seq<ListHead>, i: nat, lo: nat, mid: nat)
    requires lo <= mid && Laid(str, hs, i, mid)
    ensures Emit(str, hs, i, lo) == str[lo..mid] + Emit(str, hs, i, mid)
  {
    var hi := if i < |hs| then hs[i].offset else |str|;
    assert str[lo..hi] == str[lo..mid] + str[mid..hi];
    if i < |hs| {
      var h, tail := Header(0xC0, hs[i].size), Emit(str, hs, i + 1, hs[i].offset);
      Assoc(str[lo..mid], str[mid..hi], h);
      Assoc(str[lo..mid], str[mid..hi] + h, tail);
    }
  }

  lemma EmitHead(str: Blob, hs: seq<ListHead>, i: nat)
    requires i < |hs| && hs[i].offset <= |str|
    ensures Emit(str, hs, i, hs[i].offset) == Header(0xC0, hs[i].size) + Emit(str, hs, i + 1, hs[i].offset)
  {
    assert Piece(str, hs, i, hs[i].offset) == Header(0xC0, hs[i].size);
  }

  /** A closed list header in front of its emitted items. */
  lemma EmitList(str: Blob, hs: seq<ListHead>, i: nat, items: seq<Value>)
    requires i < |hs| && hs[i].offset <= |str| && hs[i].size == |EncodeAll(items)|
    requires Emit(str, hs, i + 1, hs[i].offset) == EncodeAll(items)
    ensures Emit(str, hs, i, hs[i].offset) == Encode(Lst(items))
  {
    EmitHead(str, hs, i);
  }

  /** Appending laid-out data and headers appends to the output. */
  lemma {:induction false} EmitAppend(str: Blob, hs: seq<ListHead>, str': Blob, hs': seq<ListHead>, i: nat, pos: nat)
    requires str <= str' && hs <= hs'
    requires Laid(str, hs, i, pos) && Laid(str', hs', |hs|, |str|)
    ensures Laid(str', hs', i, pos)
    ensures Emit(str', hs', i, pos) == Emit(str, hs, i, pos) + Emit(str', hs', |hs|, |str|)
    decreases |hs| - i
  {
    hide Header;
    if i == |hs| {
      EmitSkip(str', hs', i, pos, |str|);
      assert str'[pos..|str|] == str[pos..];
    } else {
      var p := hs[i].offset;
      EmitAppend(str, hs, str', hs', i + 1, p);
      assert str'[pos..p] == str[pos..p];
      Assoc(Piece(str, hs, i, pos), Emit(str, hs, i + 1, p), Emit(str', hs', |hs|, |str|));
    }
  }

  /** The header bytes add up the same way. */
  lemma {:induction false} HeadBytesAppend(hs: seq<ListHead>, hs': seq<ListHead>, i: nat)
    requires i <= |hs| && hs <= hs'
    ensures HeadBytes(hs', i) == HeadBytes(hs, i) + HeadBytes(hs', |hs|)
    decreases |hs| - i
  {
    if i < |hs| { HeadBytesAppend(hs, hs', i + 1); }
  }

  /** Emission only looks at the headers from `i` on. */
  lemma {:induction false} EmitLocal(str: Blob, hs: seq<ListHead>, hs': seq<ListHead>, i: nat, pos: nat)
    requires |hs| == |hs'| && forall j :: i <= j < |hs| ==> hs[j] == hs'[j]
    ensures Emit(str, hs, i, pos) == Emit(str, hs', i, pos) && HeadBytes(hs, i) == HeadBytes(hs', i)
    decreases |hs| - i
  {
    if i < |hs| { EmitLocal(str, hs, hs', i + 1, hs[i].offset); }
  }

  // --- the buffer ---

  /** Number of size bytes of a long header. */
  method IntSize(n: Uint64) returns (size: nat)
    ensures size == |BigEndian(n)|
  {
    size := 1;
    var i := n / 256;
    while i != 0
      invariant i >= 0
      invariant |BigEndian(n)| == if i == 0 then size else size + |BigEndian(i)|
    {
      size := size + 1;
      i := i / 256;
    }
  }

  class EncBuf {
    var str: Blob
    var lheads: seq<ListHead>
    var lhsize: nat

    constructor ()
      ensures str == [] && lheads == [] && lhsize == 0
    {
      str, lheads, lhsize := [], [], 0;
    }

    function Size(): nat reads this { |str| + lhsize }

    /** The output contributed since `str` had length `pos` and `lheads` length `i`. */
    ghost function Since(i: nat, pos: nat): Blob reads this { Emit(str, lheads, i, pos) }

    method EncodeString(b: Blob)
      modifies this`str
      ensures str == old(str) + EncodeStr(b)
    {
      if |b| == 1 && b[0] <= 0x7F {
        str := str + b;
      } else {
        Assoc(str, Header(0x80, |b|), b);
        str := str + Header(0x80, |b|);
        str := str + b;
      }
    }

    /** Opens a list; the head's `size` holds the header bytes written so far until it is closed. */
    method List() returns (lh: nat)
      modifies this`lheads
      ensures lh == |old(lheads)| && lheads == old(lheads) + [ListHead(|str|, lhsize)]
    {
      lh := |lheads|;
      lheads := lheads + [ListHead(|str|, lhsize)];
    }

    /** Closes a list: its size is everything written since, with the headers of inner lists. */
    method ListEnd(lh: nat)
      requires lh < |lheads| && Laid(str, lheads, lh, lheads[lh].offset)
      requires lhsize == lheads[lh].size + HeadBytes(lheads, lh + 1)
      requires |Since(lh + 1, lheads[lh].offset)| < TWO64
      modifies this`lheads, this`lhsize
      ensures var size := |old(Since(lh + 1, lheads[lh].offset))|;
        && lheads == old(lheads)[lh := old(lheads)[lh].(size := size)]
        && lhsize == old(lhsize) + |Header(0xC0, size)|
    {
      EmitLength(str, lheads, lh + 1, lheads[lh].offset);
      var size := Size() - lheads[lh].offset - lheads[lh].size;
      lheads := lheads[lh := lheads[lh].(size := size)];
      if size < 56 {
        lhsize := lhsize + 1;
      } else {
        var n := IntSize(size);
        lhsize := lhsize + 1 + n;
      }
    }

    /** Writes a generic value behind what is already there. */
    method Encode(v: Value)
      requires |Rlp.Encode(v)| < TWO64
      modifies this
      ensures old(str) <= str && old(lheads) <= lheads
      ensures Laid(str, lheads, |old(lheads)|, |old(str)|)
      ensures Since(|old(lheads)|, |old(str)|) == Rlp.Encode(v)
      ensures lhsize == old(lhsize) + HeadBytes(lheads, |old(lheads)|)
      decreases v, 1
    {
      match v
      case Str(b) => EncodeString(b);
      case Lst(items) => EncodeList(items);
    }

    /** A list: its header is closed once the size of its items is known. */
    method EncodeList(items: seq<Value>)
      requires |Rlp.Encode(Lst(items))| < TWO64
      modifies this
      ensures old(str) <= str && old(lheads) <= lheads
      ensures Laid(str, lheads, |old(lheads)|, |old(str)|)
      ensures Since(|old(lheads)|, |old(str)|) == Rlp.Encode(Lst(items))
      ensures lhsize == old(lhsize) + HeadBytes(lheads, |old(lheads)|)
      decreases items, 1
    {
      hide Header;
      var lh := List();
      ghost var off, open := |str|, lheads;
      EncodeItems(items);
      assert lheads[lh] == open[lh];
      ghost var h1 := lheads;
      ListEnd(lh);
      EmitLocal(str, h1, lheads, lh + 1, off);
      EmitList(str, lheads, lh, items);
    }

    /** The elements of a list, between opening and closing it. */
    method EncodeItems(items: seq<Value>)
      requires |EncodeAll(items)| < TWO64
      modifies this
      ensures old(str) <= str && old(lheads) <= lheads
      ensures Laid(str, lheads, |old(lheads)|, |old(str)|)
      ensures Since(|old(lheads)|, |old(str)|) == EncodeAll(items)
      ensures lhsize == old(lhsize) + HeadBytes(lheads, |old(lheads)|)
      decreases items, 0
    {
      ghost var n, off := |lheads|, |str|;
      var i := 0;
      while i < |items|
        invariant 0 <= i <= |items|
        invariant old(str) <= str && old(lheads) <= lheads
        invariant Laid(str, lheads, n, off)
        invariant Since(n, off) == EncodeAll(items[..i])
        invariant lhsize == old(lhsize) + HeadBytes(lheads, n)
      {
        EncodePieces(items, i);
        ghost var s0, h0 := str, lheads;
        Encode(items[i]);
        EmitAppend(s0, h0, str, lheads, n, off);
        HeadBytesAppend(h0, lheads, n);
        EncodeSnoc(items, i);
        i := i + 1;
      }
      assert items[..i] == items;
    }

    /** One buffer filled from front to back; no piece lands outside it. */
    method ToBytes() returns (out: Blob)
      requires Laid(str, lheads, 0, 0) && lhsize == HeadBytes(lheads, 0)
      ensures out == Since(0, 0)
    {
      hide Header, Emit;
      EmitLength(str, lheads, 0, 0);
      var buf := new Byte[Size()](_ => 0);
      var strpos: nat, pos: nat, i := 0, 0, 0;
      while i < |lheads|
        invariant 0 <= i <= |lheads| && pos <= buf.Length && Laid(str, lheads, i, strpos)
        invariant buf[..pos] + Emit(str, lheads, i, strpos) == Emit(str, lheads, 0, 0)
      {
        var piece := Piece(str, lheads, i, strpos);
        EmitStep(str, lheads, i, strpos, buf[..pos]);
        CopyInto(buf, pos, piece);
        pos := pos + |piece|;
        strpos := lheads[i].offset;
        i := i + 1;
      }
      EmitEnd(str, lheads, strpos);
      CopyInto(buf, pos, str[strpos..]);
      out := buf[..];
    }

    /** The same output handed to a writer piece by piece, up to the first error. */
    method ToWriter(w: Writer) returns (ok: bool)
      requires Laid(str, lheads, 0, 0) && w.Valid()
      modifies w
      ensures w.Valid() && (ok <==> |old(w.out)| + |Since(0, 0)| <= w.quota)
      ensures w.out == old(w.out) + if ok then Since(0, 0) else Since(0, 0)[..w.quota - |old(w.out)|]
    {
      hide Header, Emit;
      ghost var all := w.out + Emit(str, lheads, 0, 0);
      Stopped(w.out, Emit(str, lheads, 0, 0), [], w.quota);
      var strpos: nat, i := 0, 0;
      while i < |lheads|
        invariant 0 <= i <= |lheads| && Laid(str, lheads, i, strpos) && w.Valid()
        invariant w.out + Emit(str, lheads, i, strpos) == all
      {
        var head := lheads[i];
        ghost var rest := Emit(str, lheads, i + 1, head.offset);
        EmitParts(str, lheads, i, strpos, w.out);
        if head.offset - strpos > 0 {
          var n;
          n, ok := w.Push(str[strpos..head.offset], Header(0xC0, head.size) + rest, all);
          strpos := strpos + n;
          if !ok { return; }
        }
        var _, done := w.Push(Header(0xC0, head.size), rest, all);
        if !done { return false; }
        i := i + 1;
      }
      EmitEnd(str, lheads, strpos);
      ok := true;
      if strpos < |str| {
        assert str[strpos..] + [] == str[strpos..];
        var _, done := w.Push(str[strpos..], [], all);
        ok := done;
      }
    }
  }

  /** A writer that takes `quota` bytes and then fails. */
  class Writer {
    const quota: nat
    var out: Blob

    ghost predicate Valid() reads this { |out| <= quota }

    constructor (quota: nat)
      ensures Valid() && this.quota == quota && out == []
    {
      this.quota, out := quota, [];
    }

    method Write(b: Blob) returns (n: nat, ok: bool)
      requires Valid()
      modifies this
      ensures Valid() && (ok <==> |old(out)| + |b| <= quota)
      ensures n == (if ok then |b| else quota - |old(out)|) && out == old(out) + b[..n]
    {
      ok := |out| + |b| <= quota;
      n := if ok then |b| else quota - |out|;
      out := out + b[..n];
    }

    /** A write of the next part of `all`. */
    method Push(b: Blob, ghost rest: Blob, ghost all: Blob) returns (n: nat, ok: bool)
      requires Valid() && out + (b + rest) == all
      modifies this
      ensures Valid() && (ok ==> n == |b| && out + rest == all) && (!ok ==> |all| > quota && out == all[..quota])
    {
      Stopped(out, b, rest, quota);
      Assoc(out, b, rest);
      n, ok := Write(b);
    }
  }

  /** The next header, what is in front of it and what follows it. */
  lemma EmitParts(str: Blob, hs: seq<ListHead>, i: nat, pos: nat, done: Blob)
    requires i < |hs| && pos <= hs[i].offset <= |str|
    ensures var head := Header(0xC0, hs[i].size);
      var rest := Emit(str, hs, i + 1, hs[i].offset);
      var before := str[pos..hs[i].offset];
      && done + Emit(str, hs, i, pos) == done + (before + (head + rest))
      && (before == [] ==> done + Emit(str, hs, i, pos) == done + (head + rest))
  {
    hide Header;
    var head, rest, before := Header(0xC0, hs[i].size), Emit(str, hs, i + 1, hs[i].offset), str[pos..hs[i].offset];
    assert Emit(str, hs, i, pos) == before + (head + rest) by { Assoc(before, head, rest); }
    if before == [] { assert before + (head + rest) == head + rest; }
  }

  /** Where a write of `piece` stops, the whole output stops. */
  lemma Stopped(done: Blob, piece: Blob, rest: Blob, quota: nat)
    ensures |done| <= quota < |done| + |piece| ==>
      (done + (piece + rest))[..quota] == done + piece[..quota - |done|]
  {}

  lemma EmitEnd(str: Blob, lheads: seq<ListHead>, strpos: nat)
    requires Laid(str, lheads, |lheads|, strpos)
    ensures Emit(str, lheads, |lheads|, strpos) == str[strpos..]
  {}

  method CopyInto(buf: array<Byte>, pos: nat, piece: Blob)
    requires pos + |piece| <= buf.Length
    modifies buf
    ensures buf[..pos + |piece|] == old(buf[..pos]) + piece
  {
    forall j | 0 <= j < |piece| { buf[pos + j] := piece[j]; }
  }

  lemma EncodeSnoc(items: seq<Value>, i: nat)
    requires i < |items|
    ensures EncodeAll(items[..i + 1]) == EncodeAll(items[..i]) + Encode(items[i])
  {
    assert items[..i + 1] == items[..i] + [items[i]];
    EncodeAllAppend(items[..i], [items[i]]);
    assert EncodeAll([items[i]]) == Encode(items[i]) + EncodeAll([]);
  }

  /** `EncodeToBytes` of a generic value is its recursive encoding. */
  method EncodeToBytes(v: Value) returns (out: Blob)
    requires |Rlp.Encode(v)| < TWO64
    ensures out == Rlp.Encode(v)
  {
    var eb := new EncBuf();
    eb.Encode(v);
    out := eb.ToBytes();
  }

  /** `Encode` to a writer. */
  method EncodeToWriter(v: Value, quota: nat) returns (out: Blob, ok: bool)
    requires |Rlp.Encode(v)| < TWO64
    ensures ok <==> |Rlp.Encode(v)| <= quota
    ensures out == if ok then Rlp.Encode(v) else Rlp.Encode(v)[..quota]
  {
    var eb := new EncBuf();
    var w := new Writer(quota);
    eb.Encode(v);
    ok := eb.ToWriter(w);
    out := w.out;
  }

  // --- reading the output in chunks ---

  class EncReader {
    const str: Blob
    const lheads: seq<ListHead>
    var live: bool
    var lhpos: nat
    var strpos: nat
    var piece: Option<Blob>

    ghost predicate Valid() reads this {
      Laid(str, lheads, lhpos, strpos) && (piece.Some? ==> piece.value != [])
    }

    /** The output not yet cut into pieces. */
    ghost function Uncut(): Blob reads this { Emit(str, lheads, lhpos, strpos) }

    /** The output not yet read. */
    ghost function Rest(): Blob reads this {
      if !live then [] else if piece.Some? then piece.value + Uncut() else Uncut()
    }

    constructor (eb: EncBuf)
      requires Laid(eb.str, eb.lheads, 0, 0)
      ensures Valid() && Rest() == eb.Since(0, 0)
    {
      str, lheads, live := eb.str, eb.lheads, true;
      lhpos, strpos, piece := 0, 0, None;
    }

    /** The piece to copy next; nothing once the output is exhausted. */
    method Next() returns (p: Option<Blob>)
      requires Valid()
      modifies this`lhpos, this`strpos
      ensures Laid(str, lheads, lhpos, strpos)
      ensures p.None? ==> old(Rest()) == []
      ensures p.Some? ==> live && p.value != [] && old(Rest()) == p.value + Uncut()
    {
      if !live {
        p := None;
      } else if piece.Some? {
        p := piece;
      } else if lhpos < |lheads| {
        var head := lheads[lhpos];
        var sizebefore := head.offset - strpos;
        if sizebefore > 0 {
          p := Some(str[strpos..head.offset]);
          EmitSkip(str, lheads, lhpos, strpos, head.offset);
          strpos := strpos + sizebefore;
        } else {
          EmitHead(str, lheads, lhpos);
          lhpos := lhpos + 1;
          p := Some(Header(0xC0, head.size));
        }
      } else if strpos < |str| {
        p := Some(str[strpos..]);
        EmitSkip(str, lheads, lhpos, strpos, |str|);
        strpos := |str|;
      } else {
        p := None;
      }
    }

    /** Fills a buffer of `cap` bytes as far as the output reaches. */
    method Read(cap: nat) returns (b: Blob, eof: bool)
      requires Valid()
      modifies this
      ensures Valid()
      ensures |b| == (if |old(Rest())| <= cap then |old(Rest())| else cap)
      ensures old(Rest()) == b + Rest()
      ensures eof <==> |old(Rest())| <= cap
    {
      b, eof := [], false;
      ghost var whole := Rest();
      while true
        invariant Valid() && |b| <= cap && whole == b + Rest()
        decreases |Rest()|
      {
        ghost var rest := Rest();
        piece := Next();
        if piece.None? {
          live := false;
          return b, true;
        }
        var nn := if |piece.value| <= cap - |b| then |piece.value| else cap - |b|;
        var got, left := piece.value[..nn], piece.value[nn..];
        TakeSome(whole, b, piece.value, nn, Uncut());
        b := b + got;
        if left != [] {
          piece := Some(left);
          return b, false;
        }
        assert [] + Uncut() == Uncut();
        piece := None;
      }
    }
  }

  lemma TakeSome(whole: Blob, b: Blob, p: Blob, n: nat, rest: Blob)
    requires whole == b + (p + rest) && n <= |p|
    ensures whole == (b + p[..n]) + (p[n..] + rest)
  {}

  function Sum(caps: seq<nat>): nat { if caps == [] then 0 else caps[0] + Sum(caps[1..]) }

  /** Reads of any sizes, put together, are the encoding as far as the buffers reach. */
  method EncodeToReader(v: Value, caps: seq<nat>) returns (size: nat, out: Blob)
    requires |Rlp.Encode(v)| < TWO64
    ensures size == |Rlp.Encode(v)|
    ensures out <= Rlp.Encode(v)
    ensures Sum(caps) >= |Rlp.Encode(v)| ==> out == Rlp.Encode(v)
    ensures Sum(caps) < |Rlp.Encode(v)| ==> |out| == Sum(caps)
  {
    var eb := new EncBuf();
    eb.Encode(v);
    EmitLength(eb.str, eb.lheads, 0, 0);
    size := eb.Size();
    var r := new EncReader(eb);
    out := [];
    var i := 0;
    assert caps[0..] == caps;
    while i < |caps|
      invariant 0 <= i <= |caps| && r.Valid()
      invariant Rlp.Encode(v) == out + r.Rest()
      invariant r.Rest() == [] || |out| + Sum(caps[i..]) == Sum(caps)
      invariant |out| + Sum(caps[i..]) <= Sum(caps)
    {
      ghost var before := r.Rest();
      var b, _ := r.Read(caps[i]);
      Assoc(out, b, r.Rest());
      assert caps[i..][0] == caps[i] && caps[i..][1..] == caps[i + 1..];
      out := out + b;
      i := i + 1;
    }
  }
}
