/** Message code negotiation between two peers (peer/peer.go): both ends compute the same table
    of protocol offsets from their own protocols and the other's capabilities. */
module Peer {
  import opened Bytes
  import opened Sorting

  const BASE_PROTOCOL_LENGTH: nat := 16

  datatype Protocol = Protocol(name: string, version: nat, length: nat)

  datatype Cap = Cap(name: string, version: nat)

  /** A running protocol and the first code it uses. */
  datatype ProtoRW = ProtoRW(proto: Protocol, offset: int)

  type Table = map<string, ProtoRW>

  // --- order ---

  predicate NameLess(a: string, b: string) {
    b != [] && (a == [] || a[0] < b[0] || (a[0] == b[0] && NameLess(a[1..], b[1..])))
  }

  lemma {:induction false} NameTrans(a: string, b: string, c: string)
    requires NameLess(a, b) && NameLess(b, c)
    ensures NameLess(a, c)
  {
    if a != [] && a[0] == b[0] == c[0] { NameTrans(a[1..], b[1..], c[1..]); }
  }

  lemma {:induction false} NameIrreflexive(a: string)
    ensures !NameLess(a, a)
  {
    if a != [] { NameIrreflexive(a[1..]); }
  }

  lemma {:induction false} NameTotal(a: string, b: string)
    ensures a == b || NameLess(a, b) || NameLess(b, a)
  {
    if a != [] && b != [] && a[0] == b[0] {
      NameTotal(a[1..], b[1..]);
      assert a == [a[0]] + a[1..] && b == [b[0]] + b[1..];
    }
  }

  /** At the first difference the lower character decides; a proper prefix comes first. */
  ghost predicate Before(a: string, b: string) {
    a < b || exists i :: DiffersAt(a, b, i) && a[i] < b[i]
  }

  ghost predicate DiffersAt(a: string, b: string, i: int) {
    0 <= i < |a| && i < |b| && a[..i] == b[..i] && a[i] != b[i]
  }

  lemma {:induction false} NameOrder(a: string, b: string)
    ensures NameLess(a, b) <==> Before(a, b)
  {
    if a != [] && b != [] {
      forall i | DiffersAt(a, b, i) && i > 0 ensures a[0] == b[0] {
        assert a[..i][0] == b[..i][0];
      }
      if a[0] == b[0] {
        NameOrder(a[1..], b[1..]);
        SameStart(a, b);
      } else {
        assert DiffersAt(a, b, 0);
      }
    }
  }

  lemma SameStart(a: string, b: string)
    requires a != [] && b != [] && a[0] == b[0]
    ensures Before(a[1..], b[1..]) <==> Before(a, b)
  {
    assert a == [a[0]] + a[1..] && b == [b[0]] + b[1..];
    forall i | DiffersAt(a[1..], b[1..], i) ensures DiffersAt(a, b, i + 1) {
      assert a[..i + 1] == [a[0]] + a[1..][..i] && b[..i + 1] == [b[0]] + b[1..][..i];
    }
    forall i | DiffersAt(a, b, i) ensures DiffersAt(a[1..], b[1..], i - 1) {
      assert a[1..][..i - 1] == a[..i][1..] && b[1..][..i - 1] == b[..i][1..];
    }
  }

  predicate CapLess(a: Cap, b: Cap) { NameLess(a.name, b.name) || (a.name == b.name && a.version < b.version) }

  lemma CapTrans(a: Cap, b: Cap, c: Cap)
    requires CapLess(a, b) && CapLess(b, c)
    ensures CapLess(a, c)
  {
    if NameLess(a.name, b.name) && NameLess(b.name, c.name) { NameTrans(a.name, b.name, c.name); }
  }

  lemma CapAsym(a: Cap, b: Cap)
    requires CapLess(a, b)
    ensures !CapLess(b, a) && a != b
  {
    NameIrreflexive(a.name);
    if CapLess(b, a) { CapTrans(a, b, a); }
  }

  lemma CapTotal(a: Cap, b: Cap)
    ensures a == b || CapLess(a, b) || CapLess(b, a)
  {
    NameTotal(a.name, b.name);
  }

  ghost predicate Ordered(cs: seq<Cap>) { forall i, j :: 0 <= i < j < |cs| ==> !CapLess(cs[j], cs[i]) }

  lemma CapsWeaklyOrdered()
    ensures WeakOrder(CapLess)
  {
    hide CapLess;
    forall a, b | CapLess(a, b) ensures !CapLess(b, a) { CapAsym(a, b); }
    forall a, b, c | !CapLess(b, a) && !CapLess(c, b) ensures !CapLess(c, a) {
      if CapLess(c, a) {
        CapTotal(a, b);
        if CapLess(a, b) { CapTrans(c, a, b); }
      }
    }
  }

  method SortCaps(caps: seq<Cap>) returns (r: seq<Cap>)
    ensures Ordered(r) && multiset(r) == multiset(caps)
  {
    hide CapLess, WeakOrder;
    CapsWeaklyOrdered();
    r := Sort(caps, CapLess);
  }

  // --- matching ---

  function CapOf(p: Protocol): Cap { Cap(p.name, p.version) }

  /** The first protocol with a capability. */
  function Find(ps: seq<Protocol>, c: Cap): (r: Option<Protocol>)
    ensures r.Some? ==> r.value in ps && CapOf(r.value) == c
    ensures r.None? ==> forall p :: p in ps ==> CapOf(p) != c
  {
    if ps == [] then None else if CapOf(ps[0]) == c then Some(ps[0]) else Find(ps[1..], c)
  }

  /** The protocols matched by some capabilities, in their order. */
  function Matched(caps: seq<Cap>, ps: seq<Protocol>): seq<Protocol> {
    if caps == [] then []
    else
      var n := |caps| - 1;
      Matched(caps[..n], ps) + match Find(ps, caps[n]) { case Some(p) => [p] case None => [] }
  }

  /** One match: a protocol takes the place of an earlier version of itself, or the next codes. */
  function Step(t: Table, offset: int, p: Protocol): (Table, int) {
    var start := if p.name in t then offset - t[p.name].proto.length else offset;
    (t[p.name := ProtoRW(p, start)], start + p.length)
  }

  function Fold(ps: seq<Protocol>): (Table, int) {
    if ps == [] then (map[], BASE_PROTOCOL_LENGTH)
    else
      var (t, offset) := Fold(ps[..|ps| - 1]);
      Step(t, offset, ps[|ps| - 1])
  }

  /** The table of offsets for our protocols and the other end's capabilities. */
  method MatchProtocols(ps: seq<Protocol>, caps0: seq<Cap>) returns (result: Table, ghost caps: seq<Cap>)
    ensures Ordered(caps) && (forall c :: c in caps <==> c in caps0) && result == Fold(Matched(caps, ps)).0
  {
    hide Fold, Matched, Ordered, Find;
    var sorted := SortCaps(caps0);
    forall c ensures c in sorted <==> c in caps0 {
      assert c in sorted <==> c in multiset(sorted);
      assert c in caps0 <==> c in multiset(caps0);
    }
    caps := sorted;
    MatchedNone(sorted, ps);
    var offset: int := BASE_PROTOCOL_LENGTH;
    result := map[];
    for i := 0 to |sorted|
      invariant (result, offset) == Fold(Matched(sorted[..i], ps))
    {
      assert sorted[..i + 1][..i] == sorted[..i];
      var found := FindLoop(ps, sorted[i]);
      MatchedStep(sorted[..i + 1], ps);
      if found.Some? {
        var proto := found.value;
        if proto.name in result { offset := offset - result[proto.name].proto.length; }
        result := result[proto.name := ProtoRW(proto, offset)];
        offset := offset + proto.length;
      }
    }
    assert sorted[..|sorted|] == sorted;
  }

  method FindLoop(ps: seq<Protocol>, c: Cap) returns (r: Option<Protocol>)
    ensures r == Find(ps, c)
  {
    for i := 0 to |ps|
      invariant Find(ps[i..], c) == Find(ps, c)
    {
      assert ps[i..][1..] == ps[i + 1..];
      if ps[i].name == c.name && ps[i].version == c.version { return Some(ps[i]); }
    }
    return None;
  }

  lemma MatchedNone(caps: seq<Cap>, ps: seq<Protocol>)
    ensures Fold(Matched(caps[..0], ps)) == (map[], BASE_PROTOCOL_LENGTH)
  {}

  lemma MatchedStep(caps: seq<Cap>, ps: seq<Protocol>)
    requires caps != []
    ensures var n := |caps| - 1; var m := Matched(caps[..n], ps); var f := Find(ps, caps[n]);
      && (f.None? ==> Fold(Matched(caps, ps)) == Fold(m))
      && (f.Some? ==> Fold(Matched(caps, ps)) == Step(Fold(m).0, Fold(m).1, f.value))
  {
    var n := |caps| - 1;
    var m, f := Matched(caps[..n], ps), Find(ps, caps[n]);
    if f.None? {
      assert m + [] == m;
    } else {
      assert (m + [f.value])[..|m|] == m;
    }
  }

  // --- agreement ---

  /** Protocols that both ends have under the same name and version have the same length. */
  ghost predicate SameLengths(a: seq<Protocol>, b: seq<Protocol>) {
    forall p, q :: p in a && q in b && CapOf(p) == CapOf(q) ==> p.length == q.length
  }

  ghost predicate CapsOf(caps: seq<Cap>, ps: seq<Protocol>) {
    forall c :: c in caps <==> exists p :: p in ps && CapOf(p) == c
  }

  /** What is matched: the protocols that both ends have. */
  lemma {:induction false} MatchedMembers(caps: seq<Cap>, a: seq<Protocol>, b: seq<Protocol>, x: Protocol)
    requires SameLengths(a, b) && forall c :: c in caps ==> exists q :: q in b && CapOf(q) == c
    ensures x in Matched(caps, a) <==> x in a && x in b && CapOf(x) in caps
    decreases |caps|
  {
    if caps != [] {
      var n := |caps| - 1;
      assert caps == caps[..n] + [caps[n]];
      forall c | c in caps[..n] ensures exists q :: q in b && CapOf(q) == c { assert c in caps; }
      MatchedMembers(caps[..n], a, b, x);
      var f := Find(a, caps[n]);
      assert caps[n] in caps;
      var q :| q in b && CapOf(q) == caps[n];
      if f.Some? { assert f.value == q; }
    }
  }

  /** Weakly ordered, and equal where the order does not tell them apart. */
  ghost predicate Rising(ps: seq<Protocol>) {
    forall i, j :: 0 <= i < j < |ps| ==>
      !CapLess(CapOf(ps[j]), CapOf(ps[i])) && (CapOf(ps[i]) == CapOf(ps[j]) ==> ps[i] == ps[j])
  }

  lemma {:induction false} MatchedCaps(caps: seq<Cap>, ps: seq<Protocol>)
    ensures forall x :: x in Matched(caps, ps) ==> CapOf(x) in caps && Find(ps, CapOf(x)) == Some(x)
    decreases |caps|
  {
    if caps != [] {
      var n := |caps| - 1;
      assert caps == caps[..n] + [caps[n]];
      MatchedCaps(caps[..n], ps);
    }
  }

  lemma {:induction false} MatchedRising(caps: seq<Cap>, ps: seq<Protocol>)
    requires Ordered(caps)
    ensures Rising(Matched(caps, ps))
    decreases |caps|
  {
    hide CapLess;
    if caps != [] {
      var n := |caps| - 1;
      var m := Matched(caps[..n], ps);
      MatchedRising(caps[..n], ps);
      MatchedCaps(caps[..n], ps);
      var f := Find(ps, caps[n]);
      if f.None? {
        assert m + [] == m;
      } else {
        forall i | 0 <= i < |m| ensures !CapLess(caps[n], CapOf(m[i])) {
          assert m[i] in m;
          var k :| 0 <= k < n && caps[..n][k] == CapOf(m[i]);
          assert caps[k] == CapOf(m[i]);
        }
        RisingPush(m, f.value, ps);
      }
    }
  }

  lemma RisingPush(m: seq<Protocol>, p: Protocol, ps: seq<Protocol>)
    requires Rising(m) && (forall i :: 0 <= i < |m| ==> !CapLess(CapOf(p), CapOf(m[i])))
    requires (forall x :: x in m ==> Find(ps, CapOf(x)) == Some(x)) && Find(ps, CapOf(p)) == Some(p)
    ensures Rising(m + [p])
  {
    hide CapLess;
    var r := m + [p];
    forall i, j | 0 <= i < j < |r|
      ensures !CapLess(CapOf(r[j]), CapOf(r[i])) && (CapOf(r[i]) == CapOf(r[j]) ==> r[i] == r[j])
    {
      if j == |m| { assert r[i] in m; }
    }
  }

  /** Drops repetitions of the element before. */
  function Dedup(ps: seq<Protocol>): seq<Protocol> {
    if |ps| <= 1 then ps
    else
      var n := |ps| - 1;
      if ps[n] == ps[n - 1] then Dedup(ps[..n]) else Dedup(ps[..n]) + [ps[n]]
  }

  /** A match that repeats the last one changes nothing. */
  lemma {:induction false} FoldDedup(ps: seq<Protocol>)
    ensures Fold(Dedup(ps)) == Fold(ps)
    decreases |ps|
  {
    if |ps| > 1 {
      var n := |ps| - 1;
      FoldDedup(ps[..n]);
      if ps[n] == ps[n - 1] {
        StepTwice(ps[..n]);
      } else {
        assert (Dedup(ps[..n]) + [ps[n]])[..|Dedup(ps[..n])|] == Dedup(ps[..n]);
      }
    }
  }

  lemma StepTwice(ps: seq<Protocol>)
    requires ps != []
    ensures var p := ps[|ps| - 1]; Step(Fold(ps).0, Fold(ps).1, p) == Fold(ps)
  {
    var p := ps[|ps| - 1];
    var (t, offset) := Fold(ps);
    assert t[p.name := t[p.name]] == t;
  }

  lemma {:induction false} DedupSame(ps: seq<Protocol>)
    ensures forall x :: x in Dedup(ps) <==> x in ps
    ensures ps != [] ==> Dedup(ps) != [] && Dedup(ps)[|Dedup(ps)| - 1] == ps[|ps| - 1]
    decreases |ps|
  {
    if |ps| > 1 {
      var n := |ps| - 1;
      assert ps == ps[..n] + [ps[n]];
      DedupSame(ps[..n]);
    }
  }

  ghost predicate StrictlyRising(ps: seq<Protocol>) {
    forall i, j :: 0 <= i < j < |ps| ==> CapLess(CapOf(ps[i]), CapOf(ps[j]))
  }

  lemma {:induction false} DedupStrict(ps: seq<Protocol>)
    requires Rising(ps)
    ensures StrictlyRising(Dedup(ps))
    decreases |ps|
  {
    hide CapLess;
    if |ps| > 1 {
      var n := |ps| - 1;
      DedupStrict(ps[..n]);
      DedupSame(ps[..n]);
      if ps[n] != ps[n - 1] {
        forall x | x in ps[..n] ensures CapLess(CapOf(x), CapOf(ps[n])) {
          var i :| 0 <= i < n && ps[i] == x;
          CapTotal(CapOf(ps[n - 1]), CapOf(ps[n]));
          CapTotal(CapOf(x), CapOf(ps[n]));
          if i < n - 1 { Between(ps, i); }
        }
        StrictPush(Dedup(ps[..n]), ps[n]);
      }
    }
  }

  /** An element equal to the last one is equal to all in between. */
  lemma Between(ps: seq<Protocol>, i: nat)
    requires Rising(ps) && i < |ps| - 1 && ps[|ps| - 2] != ps[|ps| - 1]
    ensures CapOf(ps[i]) != CapOf(ps[|ps| - 1])
  {
    var n := |ps| - 1;
    if CapOf(ps[i]) == CapOf(ps[n]) {
      if i < n - 1 { CapTotal(CapOf(ps[n - 1]), CapOf(ps[n])); }
    }
  }

  lemma StrictPush(m: seq<Protocol>, p: Protocol)
    requires StrictlyRising(m) && forall x :: x in m ==> CapLess(CapOf(x), CapOf(p))
    ensures StrictlyRising(m + [p])
  {
    hide CapLess;
    var r := m + [p];
    forall i, j | 0 <= i < j < |r| ensures CapLess(CapOf(r[i]), CapOf(r[j])) {
      if j == |m| { assert r[i] in m; }
    }
  }

  /** A strictly rising sequence is determined by its elements. */
  lemma {:induction false} StrictUnique(a: seq<Protocol>, b: seq<Protocol>)
    requires StrictlyRising(a) && StrictlyRising(b) && forall x :: x in a <==> x in b
    ensures a == b
    decreases |a|
  {
    hide CapLess;
    if a == [] {
      Head(b);
    } else {
      assert a[|a| - 1] in a;
      assert b != [];
      var n, k := |a| - 1, |b| - 1;
      LastSame(a, b);
      WithoutLast(a);
      WithoutLast(b);
      var c, d := a[..n], b[..k];
      assert c == a[..|a| - 1] && d == b[..|b| - 1];
      forall x ensures x in c <==> x in d {
        assert x in c <==> x in a && x != a[n];
        assert x in d <==> x in b && x != b[k];
      }
      StrictUnique(a[..n], b[..k]);
      assert a == a[..n] + [a[n]] && b == b[..k] + [b[k]];
    }
  }

  lemma Head(b: seq<Protocol>)
    ensures b != [] ==> b[0] in b
  {}

  lemma LastSame(a: seq<Protocol>, b: seq<Protocol>)
    requires StrictlyRising(a) && StrictlyRising(b) && a != [] && b != [] && forall x :: x in a <==> x in b
    ensures a[|a| - 1] == b[|b| - 1]
  {
    var x, y := a[|a| - 1], b[|b| - 1];
    BelowLast(b, x);
    BelowLast(a, y);
    if CapLess(CapOf(x), CapOf(y)) { CapAsym(CapOf(x), CapOf(y)); }
  }

  lemma BelowLast(a: seq<Protocol>, x: Protocol)
    requires StrictlyRising(a) && x in a
    ensures x == a[|a| - 1] || CapLess(CapOf(x), CapOf(a[|a| - 1]))
  {
    var i :| 0 <= i < |a| && a[i] == x;
  }

  lemma WithoutLast(a: seq<Protocol>)
    requires StrictlyRising(a) && a != []
    ensures StrictlyRising(a[..|a| - 1]) && forall x :: x in a[..|a| - 1] <==> x in a && x != a[|a| - 1]
  {
    var n := |a| - 1;
    assert a == a[..n] + [a[n]];
    forall x | x in a[..n] ensures x != a[n] {
      var i :| 0 <= i < n && a[i] == x;
      CapAsym(CapOf(a[i]), CapOf(a[n]));
    }
  }

  /** Both ends compute the same table. */
  lemma Agreement(a: seq<Protocol>, b: seq<Protocol>, capsA: seq<Cap>, capsB: seq<Cap>)
    requires SameLengths(a, b) && CapsOf(capsA, a) && CapsOf(capsB, b) && Ordered(capsA) && Ordered(capsB)
    ensures Fold(Matched(capsB, a)) == Fold(Matched(capsA, b))
  {
    hide Fold, Matched, Rising, StrictlyRising, Ordered, Dedup;
    var x, y := Matched(capsB, a), Matched(capsA, b);
    MatchedRising(capsB, a);
    MatchedRising(capsA, b);
    DedupStrict(x);
    DedupStrict(y);
    DedupSame(x);
    DedupSame(y);
    forall p ensures p in x <==> p in y {
      MatchedMembers(capsB, a, b, p);
      MatchedMembers(capsA, b, a, p);
    }
    StrictUnique(Dedup(x), Dedup(y));
    FoldDedup(x);
    FoldDedup(y);
  }

  // --- what the table looks like ---

  predicate InRange(rw: ProtoRW, code: int) { rw.offset <= code < rw.offset + rw.proto.length }

  ghost predicate Covered(t: Table, code: int) { exists n :: n in t && InRange(t[n], code) }

  /** The ranges lie between the base and `offset` without overlap or hole. */
  ghost predicate Tiled(t: Table, offset: int) {
    && BASE_PROTOCOL_LENGTH <= offset
    && (forall n :: n in t ==> BASE_PROTOCOL_LENGTH <= t[n].offset && t[n].offset + t[n].proto.length <= offset)
    && (forall n, m, c :: n in t && m in t && n != m && InRange(t[n], c) ==> !InRange(t[m], c))
    && (forall c :: BASE_PROTOCOL_LENGTH <= c < offset ==> Covered(t, c))
  }

  /** Every name has the highest of its versions. */
  ghost predicate Highest(t: Table, ps: seq<Protocol>) {
    && (forall n :: n in t ==> t[n].proto in ps && t[n].proto.name == n)
    && (forall p :: p in ps ==> p.name in t && p.version <= t[p.name].proto.version)
  }

  /** Each name that both ends have, and no other, has the highest version that both ends have. */
  ghost predicate Best(t: Table, caps: seq<Cap>, ps: seq<Protocol>) {
    && (forall n :: n in t ==> t[n].proto in ps && CapOf(t[n].proto) in caps && t[n].proto.name == n)
    && (forall p :: p in ps && CapOf(p) in caps ==> p.name in t && p.version <= t[p.name].proto.version)
  }

  lemma {:induction false} MatchedAll(caps: seq<Cap>, ps: seq<Protocol>, c: Cap)
    requires c in caps && Find(ps, c).Some?
    ensures Find(ps, c).value in Matched(caps, ps)
    decreases |caps|
  {
    var n := |caps| - 1;
    assert caps == caps[..n] + [caps[n]];
    if caps[n] != c { MatchedAll(caps[..n], ps, c); }
  }

  /** The last protocol's range is the last one. */
  ghost predicate EndsWith(t: Table, offset: int, name: string) {
    && name in t && t[name].offset + t[name].proto.length == offset
    && forall n :: n in t && n != name ==> t[n].offset + t[n].proto.length <= t[name].offset
  }

  lemma {:induction false} FoldTiled(ps: seq<Protocol>)
    requires StrictlyRising(ps)
    ensures Tiled(Fold(ps).0, Fold(ps).1) && Highest(Fold(ps).0, ps)
    ensures ps != [] ==> EndsWith(Fold(ps).0, Fold(ps).1, ps[|ps| - 1].name)
    decreases |ps|
  {
    hide CapLess, Tiled, EndsWith, Highest, StrictlyRising, Step;
    if ps == [] {
      NothingTiled();
    } else {
      var n := |ps| - 1;
      WithoutLast(ps);
      FoldTiled(ps[..n]);
      StepTiled(ps, Fold(ps[..n]).0, Fold(ps[..n]).1);
    }
  }

  /** Lower names have lower codes. */
  ghost predicate ByName(t: Table) {
    forall n, m :: n in t && m in t && Before(n, m) ==> t[n].offset + t[n].proto.length <= t[m].offset
  }

  lemma {:induction false} FoldByName(ps: seq<Protocol>)
    requires StrictlyRising(ps)
    ensures ByName(Fold(ps).0)
    decreases |ps|
  {
    hide CapLess, Tiled, StrictlyRising, Before;
    if ps != [] {
      var k := |ps| - 1;
      var t, t' := Fold(ps[..k]).0, Fold(ps).0;
      WithoutLast(ps);
      FoldByName(ps[..k]);
      FoldTiled(ps[..k]);
      FoldTiled(ps);
      forall n, m | n in t' && m in t' && Before(n, m) ensures t'[n].offset + t'[n].proto.length <= t'[m].offset {
        NameOrder(n, m);
        NameIrreflexive(n);
        if n == ps[k].name {
          assert t[m].proto in ps[..k];
          NotAbove(ps, t[m].proto);
        }
      }
    }
  }

  lemma NotAbove(ps: seq<Protocol>, q: Protocol)
    requires StrictlyRising(ps) && ps != [] && q in ps[..|ps| - 1]
    ensures !NameLess(ps[|ps| - 1].name, q.name)
  {
    var i :| 0 <= i < |ps| - 1 && ps[i] == q;
    assert CapLess(CapOf(ps[i]), CapOf(ps[|ps| - 1]));
    NameIrreflexive(q.name);
    NoneBetween(q.name, ps[|ps| - 1].name);
  }

  lemma StepTiled(ps: seq<Protocol>, t: Table, offset: int)
    requires StrictlyRising(ps) && ps != []
    requires Tiled(t, offset) && Highest(t, ps[..|ps| - 1]) && (|ps| >= 2 ==> EndsWith(t, offset, ps[|ps| - 2].name))
    ensures var (t', o') := Step(t, offset, ps[|ps| - 1]);
      Tiled(t', o') && Highest(t', ps) && EndsWith(t', o', ps[|ps| - 1].name)
  {
    hide CapLess, Tiled, EndsWith, Highest, StrictlyRising, Step;
    var n := |ps| - 1;
    var init, p := ps[..n], ps[n];
    assert ps == init + [p];
    if p.name in t {
      SameNameLast(ps, t);
      StepReplace(t, offset, p);
    } else {
      StepNew(t, offset, p);
    }
    StepHighest(ps, t, offset);
  }

  lemma NothingTiled()
    ensures Tiled(map[], BASE_PROTOCOL_LENGTH) && Highest(map[], [])
  {}

  /** Versions of a name rise, and a name that is in the table already is the one matched last. */
  lemma SameNameLast(ps: seq<Protocol>, t: Table)
    requires StrictlyRising(ps) && ps != [] && Highest(t, ps[..|ps| - 1]) && ps[|ps| - 1].name in t
    ensures |ps| >= 2 && ps[|ps| - 2].name == ps[|ps| - 1].name
  {
    var n := |ps| - 1;
    var p := ps[n];
    var q := t[p.name].proto;
    var i :| 0 <= i < n && ps[i] == q;
    if i < n - 1 {
      var m := ps[n - 1];
      assert CapLess(CapOf(q), CapOf(m)) && CapLess(CapOf(m), CapOf(p));
      NoneBetween(p.name, m.name);
    }
  }

  lemma NoneBetween(a: string, b: string)
    ensures !(NameLess(a, b) && NameLess(b, a))
  {
    NameIrreflexive(a);
    if NameLess(a, b) && NameLess(b, a) { NameTrans(a, b, a); }
  }

  lemma VersionsRise(ps: seq<Protocol>, q: Protocol)
    requires StrictlyRising(ps) && ps != [] && q in ps[..|ps| - 1] && q.name == ps[|ps| - 1].name
    ensures q.version < ps[|ps| - 1].version
  {
    var n := |ps| - 1;
    var i :| 0 <= i < n && ps[i] == q;
    NameIrreflexive(q.name);
    assert CapLess(CapOf(ps[i]), CapOf(ps[n]));
  }

  lemma StepHighest(ps: seq<Protocol>, t: Table, offset: int)
    requires StrictlyRising(ps) && ps != [] && Highest(t, ps[..|ps| - 1])
    ensures Highest(Step(t, offset, ps[|ps| - 1]).0, ps)
  {
    var n := |ps| - 1;
    var init, p := ps[..n], ps[n];
    var t' := Step(t, offset, p).0;
    assert ps == init + [p];
    forall q | q in ps ensures q.name in t' && q.version <= t'[q.name].proto.version {
      if q in init && q.name == p.name { VersionsRise(ps, q); }
    }
  }

  lemma StepNew(t: Table, offset: int, p: Protocol)
    requires Tiled(t, offset) && p.name !in t
    ensures var (t', o') := Step(t, offset, p); Tiled(t', o') && EndsWith(t', o', p.name)
  {
    var (t', o') := Step(t, offset, p);
    forall c | BASE_PROTOCOL_LENGTH <= c < o' ensures Covered(t', c) {
      assert c < offset ==> Covered(t, c);
      CoverStep(t, offset, p, offset, c);
    }
    forall n, m, c | n in t' && m in t' && n != m && InRange(t'[n], c) ensures !InRange(t'[m], c) {}
  }

  lemma CoverStep(t: Table, offset: int, p: Protocol, start: int, c: int)
    requires c < start ==> exists n :: n in t && n != p.name && InRange(t[n], c)
    requires c < start + p.length
    ensures Covered(t[p.name := ProtoRW(p, start)], c)
  {
    var t' := t[p.name := ProtoRW(p, start)];
    if c < start {
      var n :| n in t && n != p.name && InRange(t[n], c);
      assert n in t' && InRange(t'[n], c);
    } else {
      assert p.name in t' && InRange(t'[p.name], c);
    }
  }

  lemma StepReplace(t: Table, offset: int, p: Protocol)
    requires Tiled(t, offset) && p.name in t && EndsWith(t, offset, p.name)
    ensures var (t', o') := Step(t, offset, p); Tiled(t', o') && EndsWith(t', o', p.name)
  {
    var (t', o') := Step(t, offset, p);
    var start := t[p.name].offset;
    forall c | BASE_PROTOCOL_LENGTH <= c < o' ensures Covered(t', c) {
      assert c < start ==> Covered(t, c);
      CoverStep(t, offset, p, start, c);
    }
    forall n, m, c | n in t' && m in t' && n != m && InRange(t'[n], c) ensures !InRange(t'[m], c) {}
  }

  /** The table of any match: contiguous from the base on, without overlap, in the order of the
      names, the highest common version for each. */
  lemma TableTiled(caps: seq<Cap>, ps: seq<Protocol>)
    requires Ordered(caps)
    ensures var m := Matched(caps, ps); Tiled(Fold(m).0, Fold(m).1) && Highest(Fold(m).0, m)
    ensures Best(Fold(Matched(caps, ps)).0, caps, ps) && ByName(Fold(Matched(caps, ps)).0)
  {
    hide Fold, Matched, Rising, StrictlyRising, Ordered, Dedup, Tiled, Find, ByName;
    var m := Matched(caps, ps);
    MatchedRising(caps, ps);
    DedupStrict(m);
    DedupSame(m);
    FoldDedup(m);
    FoldTiled(Dedup(m));
    FoldByName(Dedup(m));
    MatchedCaps(caps, ps);
    forall p | p in ps && CapOf(p) in caps ensures p.name in Fold(m).0 && p.version <= Fold(m).0[p.name].proto.version {
      MatchedAll(caps, ps, CapOf(p));
    }
  }

  /** The protocol that a code belongs to. */
  method GetProto(running: Table, code: int) returns (r: Option<ProtoRW>)
    ensures r.Some? <==> Covered(running, code)
    ensures r.Some? ==> InRange(r.value, code) && exists n :: n in running && running[n] == r.value
  {
    var todo := running.Keys;
    while todo != {}
      invariant todo <= running.Keys && forall n :: n in running && n !in todo ==> !InRange(running[n], code)
    {
      var n :| n in todo;
      if code >= running[n].offset && code < running[n].offset + running[n].proto.length { return Some(running[n]); }
      todo := todo - {n};
    }
    return None;
  }

  /** Outgoing code of a message, if the protocol has it. */
  function WriteCode(rw: ProtoRW, code: nat): Option<int> {
    if code >= rw.proto.length then None else Some(code + rw.offset)
  }

  function ReadCode(rw: ProtoRW, code: int): int { code - rw.offset }

  /** A code written by one end is routed by the other to the same protocol, and reads the same. */
  lemma Routed(a: seq<Protocol>, b: seq<Protocol>, capsA: seq<Cap>, capsB: seq<Cap>, name: string, code: nat, n: string)
    requires SameLengths(a, b) && CapsOf(capsA, a) && CapsOf(capsB, b) && Ordered(capsA) && Ordered(capsB)
    requires name in Fold(Matched(capsB, a)).0 && n in Fold(Matched(capsA, b)).0
    requires var wire := WriteCode(Fold(Matched(capsB, a)).0[name], code);
      wire.Some? && InRange(Fold(Matched(capsA, b)).0[n], wire.value)
    ensures n == name && Fold(Matched(capsA, b)).0[n].proto == Fold(Matched(capsB, a)).0[name].proto
    ensures ReadCode(Fold(Matched(capsA, b)).0[n], WriteCode(Fold(Matched(capsB, a)).0[name], code).value) == code
  {
    hide Fold, Matched, Ordered;
    Agreement(a, b, capsA, capsB);
    TableTiled(capsB, a);
    var t := Fold(Matched(capsB, a)).0;
    assert InRange(t[name], code + t[name].offset);
  }
}
