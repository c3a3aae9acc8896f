/** The pull decoder (process/decode.go): one reader, a stack of open lists with their
    limits, and a cached header. Decoding into an empty interface is proved to compute
    the canonical parser of module Rlp, error for error. */
module RlpStream {
  import opened Bytes
  import opened Rlp

  datatype ListPos = ListPos(pos: Uint64, size: Uint64)

  /** Bytes consumed of each open list are counted exactly, and each list fits what is left
      of the one around it. `starts[i]` is where the content of list `i` begins. */
  ghost predicate Nested(stack: seq<ListPos>, starts: seq<nat>, pos: nat, len: nat) {
    && |starts| == |stack| && pos <= len
    && (stack != [] ==>
          var n := |stack| - 1;
          && stack[n].pos <= stack[n].size
          && starts[n] + stack[n].pos == pos
          && starts[n] + stack[n].size <= LimitOf(stack[..n], starts[..n], len)
          && Nested(stack[..n], starts[..n], starts[n], len))
  }

  /** End of the innermost list, or of the input: no read may pass it. */
  ghost function LimitOf(stack: seq<ListPos>, starts: seq<nat>, len: nat): nat
    requires |starts| == |stack|
  {
    if stack == [] then len else starts[|stack| - 1] + stack[|stack| - 1].size
  }

  lemma {:induction false} NestedLimit(stack: seq<ListPos>, starts: seq<nat>, pos: nat, len: nat)
    requires Nested(stack, starts, pos, len)
    ensures pos <= LimitOf(stack, starts, len) <= len
  {
    if stack != [] {
      var n := |stack| - 1;
      NestedLimit(stack[..n], starts[..n], starts[n], len);
    }
  }

  function Charge(stack: seq<ListPos>, n: nat): seq<ListPos>
    requires stack != [] ==> stack[|stack| - 1].pos + n < TWO64
  {
    if stack == [] then []
    else stack[|stack| - 1 := ListPos(stack[|stack| - 1].pos + n, stack[|stack| - 1].size)]
  }

  lemma NestedAdvance(stack: seq<ListPos>, starts: seq<nat>, pos: nat, len: nat, n: nat)
    requires Nested(stack, starts, pos, len) && len < TWO64
    requires pos + n <= LimitOf(stack, starts, len)
    ensures Nested(Charge(stack, n), starts, pos + n, len)
    ensures LimitOf(Charge(stack, n), starts, len) == LimitOf(stack, starts, len)
  {
    NestedLimit(stack, starts, pos, len);
    if stack != [] { assert Charge(stack, n)[..|stack| - 1] == stack[..|stack| - 1]; }
  }

  lemma NestedPush(stack: seq<ListPos>, starts: seq<nat>, pos: nat, len: nat, n: Uint64)
    requires Nested(stack, starts, pos, len) && pos + n <= LimitOf(stack, starts, len)
    ensures Nested(stack + [ListPos(0, n)], starts + [pos], pos, len)
    ensures LimitOf(stack + [ListPos(0, n)], starts + [pos], len) == pos + n
  {
    assert (stack + [ListPos(0, n)])[..|stack|] == stack;
    assert (starts + [pos])[..|stack|] == starts;
  }

  lemma NestedTop(stack: seq<ListPos>, starts: seq<nat>, pos: nat, len: nat)
    requires Nested(stack, starts, pos, len) && stack != []
    ensures LimitOf(stack, starts, len) - pos == stack[|stack| - 1].size - stack[|stack| - 1].pos >= 0
  {}

  lemma NestedPop(stack: seq<ListPos>, starts: seq<nat>, pos: nat, len: nat)
    requires Nested(stack, starts, pos, len) && len < TWO64 && stack != []
    requires stack[|stack| - 1].pos == stack[|stack| - 1].size
    ensures var m := |stack| - 1;
      && Nested(stack[..m], starts[..m], starts[m], len)
      && Nested(Charge(stack[..m], stack[m].size), starts[..m], pos, len)
      && pos <= LimitOf(Charge(stack[..m], stack[m].size), starts[..m], len) <= len
  {
    var m := |stack| - 1;
    NestedLimit(stack[..m], starts[..m], starts[m], len);
    NestedAdvance(stack[..m], starts[..m], starts[m], len, stack[m].size);
    NestedLimit(Charge(stack[..m], stack[m].size), starts[..m], pos, len);
  }

  /** A cached header result agrees with the bytes it was read from. */
  ghost predicate Cached(b: Blob, top: bool, k: Kind, n: nat, err: Option<Error>, tag: nat) {
    match err
    case Some(e) => ReadHead(b, top) == BadHead(e)
    case None => ReadHead(b, top) == Head(k, tag, n)
  }

  class Stream {
    const input: Blob
    var pos: nat                  // reader position
    var remaining: Uint64
    var kind: Option<Kind>        // cached kind of the next value, if its header was read
    var size: Uint64
    var byteval: Byte
    var kinderr: Option<Error>
    var stack: seq<ListPos>
    ghost var starts: seq<nat>
    ghost var hpos: nat           // where the cached header begins

    ghost predicate Frames()
      reads this
    {
      && |input| < TWO64 && |starts| == |stack| && Nested(stack, starts, pos, |input|)
      && remaining == |input| - pos && pos <= Limit() <= |input|
    }

    ghost function Limit(): nat
      requires |starts| == |stack|
      reads this
    {
      LimitOf(stack, starts, |input|)
    }

    /** Where the next value begins, header included. */
    ghost function Start(): nat reads this { if kind.None? then pos else hpos }

    /** The bytes the next value may use. */
    ghost function Avail(): Blob
      requires Frames() && Start() <= Limit()
      reads this
    {
      input[Start()..Limit()]
    }

    ghost predicate Valid()
      reads this
    {
      && Frames()
      && (kind.Some? ==>
            && hpos <= pos
            && Cached(input[hpos..Limit()], stack == [], kind.value, size, kinderr, pos - hpos)
            && (kinderr == None && kind.value == Byte ==> byteval == input[hpos]))
    }

    /** Inside a list, all of it consumed. */
    ghost predicate AtEnd()
      requires |starts| == |stack|
      reads this
    {
      stack != [] && kind == None && pos == Limit()
    }

    /** The open lists are the same, and only the innermost one may have advanced. */
    twostate predicate SameFrames()
      reads this
    {
      starts == old(starts) && SameBelow(old(stack), stack)
    }

    constructor (b: Blob)
      requires |b| < TWO64
      ensures Valid() && input == b && stack == [] && kind == None && pos == 0
    {
      input, pos, remaining := b, 0, |b|;
      kind, size, byteval, kinderr := None, 0, 0, None;
      stack, starts, hpos := [], [], 0;
    }

    /** Charges `n` bytes to the innermost list and to the input. */
    method WillRead(n: Uint64) returns (err: Option<Error>)
      requires Frames()
      modifies this`kind, this`stack, this`remaining
      ensures kind == None
      ensures n > old(Limit()) - pos ==>
        err == Some(TooLarge(stack == [])) && stack == old(stack) && remaining == old(remaining)
      ensures n <= old(Limit()) - pos ==>
        err == None && remaining == old(remaining) - n && stack == Charge(old(stack), n)
    {
      kind := None;
      if |stack| > 0 {
        var tos := stack[|stack| - 1];
        if n > tos.size - tos.pos { return Some(ElemTooLarge); }
        stack := stack[|stack| - 1 := ListPos(tos.pos + n, tos.size)];
      }
      if n > remaining { return Some(ValueTooLarge); }
      remaining := remaining - n;
      err := None;
    }

    method ReadFull(n: Uint64) returns (b: Blob, err: Option<Error>)
      requires Frames()
      modifies this`kind, this`stack, this`remaining, this`pos
      ensures Frames() && old(pos) <= pos && Limit() == old(Limit()) && SameFrames() && kind == None
      ensures n <= old(Limit()) - old(pos) ==> err == None && pos == old(pos) + n && b == input[old(pos)..pos]
      ensures n > old(Limit()) - old(pos) ==> err == Some(TooLarge(stack == [])) && pos == old(pos)
    {
      b := [];
      err := WillRead(n);
      if err.None? {
        NestedAdvance(old(stack), starts, pos, |input|, n);
        b := input[pos..pos + n];
        pos := pos + n;
      }
    }

    method ReadByte() returns (b: Byte, err: Option<Error>)
      requires Frames()
      modifies this`kind, this`stack, this`remaining, this`pos
      ensures Frames() && old(pos) <= pos && Limit() == old(Limit()) && SameFrames() && kind == None
      ensures old(pos) < old(Limit()) ==> err == None && pos == old(pos) + 1 && b == input[old(pos)]
      ensures old(pos) == old(Limit()) ==> err == Some(TooLarge(stack == [])) && pos == old(pos)
    {
      var s;
      s, err := ReadFull(1);
      b := if err.None? then s[0] else 0;
    }

    /** A size field of `n` bytes; a leading zero byte is not canonical. */
    method ReadUint(n: nat) returns (v: Uint64, err: Option<Error>)
      requires Frames() && n <= 8
      modifies this`kind, this`stack, this`remaining, this`pos
      ensures Frames() && old(pos) <= pos && Limit() == old(Limit()) && SameFrames() && kind == None
      ensures n > old(Limit()) - old(pos) ==> err == Some(TooLarge(stack == []))
      ensures n <= old(Limit()) - old(pos) ==>
        && pos == old(pos) + n
        && if n > 1 && input[old(pos)] == 0 then err == Some(CanonSize)
           else err == None && v == FromBig(input[old(pos)..pos])
    {
      if n == 0 {
        kind, v, err := None, 0, None;
        assert input[old(pos)..pos] == [];
      } else if n == 1 {
        v, err := ReadByte();
        assert err == None ==> input[old(pos)..pos] == [v];
      } else {
        var b;
        b, err := ReadFull(n);
        v := 0;
        if err.Some? { return; }
        if b[0] == 0 { return 0, Some(CanonSize); }
        FromBigBound(b);
        Pow256Mono(|b|, 8);
        Pow256Eight();
        v := FromBig(b);
      }
    }

    /** Reads a header off the input, without checking the announced size against the limit. */
    method ReadKind() returns (k: Kind, n: Uint64, err: Option<Error>)
      requires Frames() && (stack == [] || pos < Limit())
      modifies this`kind, this`stack, this`remaining, this`pos, this`byteval
      ensures Frames() && old(pos) <= pos && Limit() == old(Limit()) && SameFrames()
      ensures var b := input[old(pos)..old(Limit())]; var h := ReadHead(b, stack == []);
        && (err.Some? ==> h == BadHead(err.value))
        && (err.None? ==> pos > old(pos) && (if n > Limit() - pos then h == BadHead(TooLarge(stack == []))
                                             else h == Head(k, pos - old(pos), n)))
        && (err.None? ==> byteval == if k == Byte then input[old(pos)] else 0) && (k == Byte ==> n == 0)
    {
      hide Nested, ReadLong;
      k, n := Byte, 0;
      var b;
      b, err := ReadByte();
      if err.Some? {
        if |stack| == 0 { err := Some(EOF); }
        return;
      }
      ghost var avail := input[old(pos)..Limit()];
      assert avail[0] == b;
      byteval := 0;
      if b < 0x80 {
        byteval := b;
      } else if b < 0xB8 {
        k, n := String, b - 0x80;
      } else if b < 0xC0 {
        k := String;
        n, err := ReadLongSize(b - 0xB7, avail, String);
      } else if b < 0xF8 {
        k, n := List, b - 0xC0;
      } else {
        k := List;
        n, err := ReadLongSize(b - 0xF7, avail, List);
      }
    }

    /** The size bytes of a long header, with both canonicality checks. */
    method ReadLongSize(ll: nat, ghost avail: Blob, ghost k: Kind) returns (n: Uint64, err: Option<Error>)
      requires Frames() && 0 < pos && 0 < ll <= 8
      requires avail == input[pos - 1..Limit()]
      modifies this`kind, this`stack, this`remaining, this`pos
      ensures Frames() && old(pos) <= pos && Limit() == old(Limit()) && SameFrames()
      ensures var h := ReadLong(k, ll, avail, stack == []);
        && (err.Some? ==> h == BadHead(err.value))
        && (err.None? ==> pos == old(pos) + ll && (if n > Limit() - pos then h == BadHead(TooLarge(stack == []))
                                                   else h == Head(k, 1 + ll, n)))
    {
      hide Nested;
      SliceOf(input, pos - 1, Limit(), ll);
      n, err := ReadUint(ll);
      if err.None? && n < 56 { err := Some(CanonSize); }
    }

    lemma SliceOf(b: Blob, from: nat, to: nat, ll: nat)
      requires from < to <= |b| && ll > 0
      ensures from + 1 + ll <= to ==>
        b[from..to][1..1 + ll] == b[from + 1..from + 1 + ll] && b[from..to][1] == b[from + 1]
    {
      if from + 1 + ll <= to { SubSlice(b, from, to, 1, 1 + ll); }
    }

    /** Kind and size of the next value; the header is read once and then cached. */
    method NextKind() returns (k: Kind, n: Uint64, err: Option<Error>)
      requires Valid()
      modifies this
      ensures Valid() && SameFrames() && Limit() == old(Limit()) && Start() == old(Start())
      ensures old(AtEnd()) ==> err == Some(EOL) && kind == None && kinderr == None && stack == old(stack)
      ensures !old(AtEnd()) ==> kind == Some(k) && size == n && kinderr == err
    {
      hide ReadHead;
      if kind.None? {
        kinderr := None;
        if |stack| > 0 && stack[|stack| - 1].pos == stack[|stack| - 1].size {
          return Byte, 0, Some(EOL);
        }
        hpos := pos;
        k, n, err := ReadKind();
        if err.None? {
          if |stack| == 0 {
            if n > remaining { err := Some(ValueTooLarge); }
          } else {
            var tos := stack[|stack| - 1];
            if n > tos.size - tos.pos { err := Some(ElemTooLarge); }
          }
        }
        kind, size, kinderr := Some(k), n, err;
      }
      k, n, err := kind.value, size, kinderr;
    }

    /** The content of a string whose header is the first `tag` bytes of `avail`. */
    method StringBody(n: Uint64, ghost avail: Blob, ghost tag: nat) returns (b: Blob, err: Option<Error>)
      requires Frames() && tag <= pos && avail == input[pos - tag..Limit()]
      requires ReadHead(avail, stack == []) == Head(String, tag, n)
      modifies this`kind, this`stack, this`remaining, this`pos
      ensures Frames() && SameFrames() && Limit() == old(Limit()) && kind == None && pos == old(pos) + n
      ensures err == None ==> Parse(avail, old(stack) == []) == Ok(Str(b), tag + n)
      ensures err != None ==> Parse(avail, old(stack) == []) == Err(err.value)
    {
      hide ReadHead, Nested, ParseAll;
      b, err := ReadFull(n);
      SubSlice(input, old(pos) - tag, old(Limit()), tag, tag + n);
      assert n == 1 ==> avail[tag] == b[0];
      if n == 1 && b[0] < 128 { err := Some(CanonSize); }
    }

    /** A string value. */
    method GetBytes() returns (b: Blob, err: Option<Error>)
      requires Valid()
      modifies this
      ensures old(AtEnd()) ==> err == Some(EOL)
      ensures !old(AtEnd()) ==>
        match ReadHead(old(Avail()), old(stack) == [])
        case BadHead(e) => err == Some(e)
        case Head(k, _, _) =>
          if k == List then err == Some(ExpectedString)
          else match Parse(old(Avail()), old(stack) == [])
            case Err(e) => err == Some(e)
            case Ok(v, n) =>
              && err == None && v == Str(b) && kind == None
              && Valid() && SameFrames() && Limit() == old(Limit()) && pos == old(Start()) + n
    {
      hide ReadHead, Nested, ParseAll;
      ghost var avail := Avail();
      b := [];
      var k, n;
      k, n, err := NextKind();
      if err.Some? { return; }
      match k
      case Byte =>
        kind := None;
        b := [byteval];
        assert avail[..1] == b;
      case String =>
        b, err := StringBody(n, avail, pos - old(Start()));
      case List =>
        err := Some(ExpectedString);
    }

    /** Enters a list. */
    method EnterList() returns (n: Uint64, err: Option<Error>)
      requires Valid()
      modifies this
      ensures old(AtEnd()) ==> err == Some(EOL)
      ensures !old(AtEnd()) ==>
        match ReadHead(old(Avail()), old(stack) == [])
        case BadHead(e) => err == Some(e)
        case Head(k, tag, sz) =>
          if k != List then err == Some(ExpectedList)
          else
            && err == None && n == sz && kind == None && Valid()
            && pos == old(Start()) + tag && starts == old(starts) + [pos]
            && |stack| == |old(stack)| + 1 && stack[|stack| - 1] == ListPos(0, n)
            && LimitOf(stack[..|stack| - 1], old(starts), |input|) == old(Limit())
            && SameBelow(old(stack), stack[..|stack| - 1])
    {
      hide ReadHead, Nested;
      var k;
      k, n, err := NextKind();
      if err.Some? { return; }
      if k != List { return 0, Some(ExpectedList); }
      ghost var outer := stack;
      NestedPush(stack, starts, pos, |input|, n);
      stack := stack + [ListPos(0, n)];
      starts := starts + [pos];
      assert stack[..|stack| - 1] == outer;
      kind, size := None, 0;
    }

    /** Leaves a list that has been consumed completely. */
    method ListEnd() returns (err: Option<Error>)
      requires Valid()
      modifies this
      ensures old(stack) == [] ==> err == Some(NotInList) && stack == []
      ensures old(stack) != [] && old(pos) != old(Limit()) ==> err == Some(NotAtEOL)
      ensures old(stack) != [] && old(pos) == old(Limit()) ==>
        var m := |old(stack)| - 1;
        && err == None && kind == None && Valid() && pos == old(pos)
        && starts == old(starts)[..m] && |stack| == m
        && SameBelow(old(stack)[..m], stack)
    {
      hide Nested;
      if |stack| == 0 { return Some(NotInList); }
      NestedTop(stack, starts, pos, |input|);
      var tos := stack[|stack| - 1];
      if tos.pos != tos.size { return Some(NotAtEOL); }
      NestedPop(stack, starts, pos, |input|);
      starts := starts[..|stack| - 1];
      stack := stack[..|stack| - 1];
      if |stack| > 0 {
        var t := stack[|stack| - 1];
        stack := stack[|stack| - 1 := ListPos(t.pos + tos.size, t.size)];
      }
      kind, size := None, 0;
      err := None;
    }

    /** The next value has been consumed, up to `end`. */
    twostate predicate Consumed(end: nat)
      requires |old(starts)| == |old(stack)|
      reads this
    {
      Valid() && SameFrames() && Limit() == old(Limit()) && kind == None && pos == end
    }

    /** Decoding into an empty interface: a byte string or a list of such values. */
    method DecodeInterface() returns (v: Value, err: Option<Error>)
      requires Valid()
      modifies this
      ensures old(AtEnd()) ==> err == Some(EOL) && Consumed(old(pos))
      ensures !old(AtEnd()) && Parse(old(Avail()), old(stack) == []).Err? ==>
        err == Some(Parse(old(Avail()), old(stack) == []).error)
      ensures !old(AtEnd()) && Parse(old(Avail()), old(stack) == []).Ok? ==>
        && err == None && v == Parse(old(Avail()), old(stack) == []).value
        && Consumed(old(Start()) + Parse(old(Avail()), old(stack) == []).len)
      decreases |input| - Start(), 1
    {
      hide ReadHead, Nested, ParseAll;
      v := Str([]);
      var k, n;
      k, n, err := NextKind();
      if err.Some? { return; }
      if k == List {
        var items;
        items, err := DecodeList();
        v := Lst(items);
      } else {
        var b;
        b, err := GetBytes();
        v := Str(b);
      }
    }

    method DecodeList() returns (items: seq<Value>, err: Option<Error>)
      requires Valid() && kind == Some(List) && kinderr == None
      modifies this
      ensures Parse(old(Avail()), old(stack) == []).Err? ==>
        err == Some(Parse(old(Avail()), old(stack) == []).error)
      ensures Parse(old(Avail()), old(stack) == []).Ok? ==>
        && err == None && Lst(items) == Parse(old(Avail()), old(stack) == []).value
        && Consumed(old(Start()) + Parse(old(Avail()), old(stack) == []).len)
      decreases |input| - Start(), 0
    {
      hide ReadHead, Nested, ParseAll;
      items := [];
      ghost var avail, s, limit, h := Avail(), Start(), Limit(), ReadHead(Avail(), stack == []);
      var size;
      size, err := EnterList();
      SubSlice(input, s, limit, h.tag, h.tag + h.size);
      assert Avail() == avail[h.tag..h.tag + h.size];
      ParseNothing();
      if size != 0 {
        items, err := DecodeElems();
        if err.Some? { return; }
      }
      assert pos == Limit();
      err := ListEnd();
    }

    /** Elements until the end of the enclosing list. */
    method DecodeElems() returns (items: seq<Value>, err: Option<Error>)
      requires Valid() && stack != [] && kind == None
      modifies this
      ensures ParseAll(old(Avail())).Err? ==> err == Some(ParseAll(old(Avail())).error)
      ensures ParseAll(old(Avail())).Ok? ==>
        err == None && items == ParseAll(old(Avail())).value && Consumed(old(Limit()))
      decreases |input| - Start(), 2
    {
      hide ReadHead, Parse, Nested;
      ghost var limit := Limit();
      ghost var whole := ParseAll(input[pos..limit]);
      items := [];
      while true
        invariant Valid() && SameFrames() && Limit() == limit && kind == None && pos >= old(pos)
        invariant Resumes(whole, items, ParseAll(input[pos..limit]))
        decreases |input| - pos
      {
        ghost var at := pos;
        var v;
        v, err := DecodeInterface();
        if err == Some(EOL) { return items, None; }
        ElemStep(input, at, limit, whole, items);
        if err.Some? { return; }
        items := items + [v];
      }
    }
  }

  lemma ElemStep(input: Blob, at: nat, limit: nat, whole: Parsed<seq<Value>>, done: seq<Value>)
    requires at < limit <= |input| && Resumes(whole, done, ParseAll(input[at..limit]))
    ensures var r := Parse(input[at..limit], false);
      && (r.Err? ==> whole == Err(r.error))
      && (r.Ok? ==> Resumes(whole, done + [r.value], ParseAll(input[at + r.len..limit])))
  {
    var r := Parse(input[at..limit], false);
    ResumeStep(whole, done, input[at..limit]);
    if r.Ok? {
      SubSlice(input, at, limit, r.len, limit - at);
      assert input[at..limit][r.len..] == input[at..limit][r.len..limit - at];
    }
  }

  /** `DecodeBytes` into an empty interface. */
  method DecodeBytes(b: Blob) returns (v: Value, err: Option<Error>)
    requires |b| < TWO64
    ensures match Decode(b) case Err(e) => err == Some(e) case Ok(w, _) => err == None && v == w
    ensures err == None <==> exists w :: b == Encode(w)
    ensures err == None ==> b == Encode(v)
  {
    var s := new Stream(b);
    assert b[0..|b|] == b;
    v, err := s.DecodeInterface();
    if err.None? && |b| - s.pos > 0 { err := Some(MoreThanOneValue); }
    if err.None? { DecodeIffEncode(b, v); }
    forall w | b == Encode(w) ensures err == None { DecodeIffEncode(b, w); }
  }

  lemma ParseNothing()
    ensures ParseAll([]) == Ok([], 0)
  {}

  /** Decoding of a list has produced `done` and has `rest` still to come. */
  ghost predicate Resumes(whole: Parsed<seq<Value>>, done: seq<Value>, rest: Parsed<seq<Value>>) {
    match rest
    case Err(e) => whole == Err(e)
    case Ok(vs, _) => whole.Ok? && whole.value == done + vs
  }

  lemma ResumeStep(whole: Parsed<seq<Value>>, done: seq<Value>, b: Blob)
    requires b != [] && Resumes(whole, done, ParseAll(b))
    ensures Parse(b, false).Err? ==> whole == Err(Parse(b, false).error)
    ensures Parse(b, false).Ok? ==>
      Resumes(whole, done + [Parse(b, false).value], ParseAll(b[Parse(b, false).len..]))
  {
    match Parse(b, false)
    case Err(_) =>
    case Ok(v, n) =>
      match ParseAll(b[n..])
      case Err(_) =>
      case Ok(vs, _) => Assoc(done, [v], vs);
  }

  /** Two stacks of open lists that differ at most in how far the innermost one advanced. */
  ghost predicate SameBelow(a: seq<ListPos>, b: seq<ListPos>) {
    && |a| == |b|
    && (forall i :: 0 <= i < |a| - 1 ==> a[i] == b[i])
    && (a != [] ==> a[|a| - 1].size == b[|a| - 1].size)
  }
}
