/** When the loop of VerifyProof (fast/proof.go) does not end. A proof set may lead the checker
    around in circles; how many steps tell that is known beforehand. */
module Circling {
  import opened Bytes
  import opened Hex
  import opened Node
  import opened Memory
  import opened Proof
  import opened Decoding

  /** Where the loop stands: the hash wanted next and the key that is left. */
  datatype Stand = Stand(digest: Digest, key: Key)

  /** The next stand, if the loop goes on. */
  function Next(s: Stand, db: Store): Option<Stand> {
    if s.digest !in db then None
    else
      match DecodeNode(Some(s.digest), db[s.digest], 0)
      case Ok(n) =>
        (match Walk(n, s.key)
         case Onward(rest, d) => Some(Stand(d, rest))
         case _ => None)
      case _ => None
  }

  /** The stand after `n` rounds, if the loop gets that far. */
  function After(s: Stand, db: Store, n: nat): Option<Stand> {
    if n == 0 then Some(s)
    else
      match After(s, db, n - 1)
      case None => None
      case Some(m) => Next(m, db)
  }

  lemma {:induction false} AfterFirst(s: Stand, db: Store, n: nat)
    requires n > 0
    ensures After(s, db, n) == match Next(s, db) case None => None case Some(m) => After(m, db, n - 1)
  {
    if n > 1 { AfterFirst(s, db, n - 1); }
  }

  /** The checker runs out of steps exactly when the loop goes on for that many rounds. */
  lemma {:induction false} ExhaustedIff(s: Stand, db: Store, n: nat)
    ensures Verify(s.digest, s.key, db, n) == Exhausted <==> After(s, db, n).Some?
    decreases n
  {
    hide DecodeNode, Walk;
    if n > 0 {
      AfterFirst(s, db, n);
      if Next(s, db).Some? { ExhaustedIff(Next(s, db).value, db, n - 1); }
    }
  }

  // --- stands that come back ---

  lemma {:induction false} WalkCuts(n: Node, key: Key)
    ensures Walk(n, key).Onward? ==> IsTail(Walk(n, key).rest, key)
    decreases n
  {
    match n
    case Short(k, c, _) =>
      if k <= key {
        WalkCuts(c, key[|k|..]);
        if Walk(n, key).Onward? { TailTrans(Walk(n, key).rest, key[|k|..], key); }
      }
    case Full(cs, _) =>
      if key != [] && |cs| == 17 {
        WalkCuts(cs[key[0]], key[1..]);
        if Walk(n, key).Onward? { TailTrans(Walk(n, key).rest, key[1..], key); }
      }
    case _ =>
  }

  predicate IsTail(a: Key, b: Key) { |a| <= |b| && a == b[|b| - |a|..] }

  lemma TailTrans(a: Key, b: Key, c: Key)
    requires IsTail(a, b) && IsTail(b, c)
    ensures IsTail(a, c)
  {}

  lemma {:induction false} KeyShrinks(s: Stand, db: Store, n: nat)
    ensures After(s, db, n).Some? ==> IsTail(After(s, db, n).value.key, s.key)
  {
    hide DecodeNode, Walk, IsTail;
    if n == 0 {
      assert IsTail(s.key, s.key) by { SelfTail(s.key); }
    } else if After(s, db, n).Some? {
      KeyShrinks(s, db, n - 1);
      var m := After(s, db, n - 1).value;
      WalkCuts(DecodeNode(Some(m.digest), db[m.digest], 0).value, m.key);
      TailTrans(After(s, db, n).value.key, m.key, s.key);
    }
  }

  lemma SelfTail(k: Key)
    ensures IsTail(k, k)
  {}

  /** All places the loop can be at while it goes on: a stored hash and a length of key. */
  ghost function Places(db: Store, k: nat): (r: set<(Digest, nat)>) {
    if k == 0 then {} else Places(db, k - 1) + Row(db, k - 1)
  }

  ghost function Row(db: Store, m: nat): set<(Digest, nat)> { set d | d in db :: (d, m) }

  lemma {:induction false} PlacesAre(db: Store, k: nat)
    ensures forall d, m: nat :: (d, m) in Places(db, k) <==> d in db && m < k
  {
    if k > 0 { PlacesAre(db, k - 1); }
  }

  lemma {:induction false} CountPlaces(db: Store, k: nat)
    ensures |Places(db, k)| == Grid(|db|, k)
  {
    hide Places;
    if k == 0 {
      NoPlaces(db);
    } else {
      CountPlaces(db, k - 1);
      CountStep(db, k - 1);
    }
  }

  lemma NoPlaces(db: Store)
    ensures |Places(db, 0)| == 0
  {}

  lemma CountStep(db: Store, k: nat)
    ensures |Places(db, k + 1)| == |Places(db, k)| + |db|
  {
    hide Row;
    var a, b := Places(db, k), Row(db, k);
    assert Places(db, k + 1) == a + b;
    hide Places;
    RowApart(db, k);
    Disjoint(a, b);
    CountRow(db, k);
  }

  function Grid(n: nat, k: nat): nat { if k == 0 then 0 else Grid(n, k - 1) + n }

  lemma {:induction false} GridIs(n: nat, k: nat)
    ensures Grid(n, k) == n * k
  {
    if k > 0 {
      GridIs(n, k - 1);
      assert n * k == n * (k - 1) + n;
    }
  }

  lemma Disjoint<T>(a: set<T>, b: set<T>)
    requires a !! b
    ensures |a + b| == |a| + |b|
  {}

  lemma RowApart(db: Store, m: nat)
    ensures Places(db, m) !! Row(db, m)
  {
    PlacesAre(db, m);
  }

  lemma {:induction false} CountRow(db: Store, m: nat)
    ensures |Row(db, m)| == |db|
  {
    if db != map[] {
      var d :| d in db;
      CountRow(db - {d}, m);
      assert Row(db, m) == Row(db - {d}, m) + {(d, m)};
      assert (db - {d}).Keys == db.Keys - {d};
    }
  }

  ghost function Place(s: Stand, db: Store, i: nat): (Digest, nat)
    requires After(s, db, i).Some?
  {
    (After(s, db, i).value.digest, |After(s, db, i).value.key|)
  }

  ghost predicate Going(s: Stand, db: Store, n: nat) { forall i :: 0 <= i <= n ==> After(s, db, i).Some? }

  lemma {:induction false} GoingOn(s: Stand, db: Store, n: nat)
    requires After(s, db, n).Some?
    ensures Going(s, db, n)
  {
    hide Next;
    if n > 0 { GoingOn(s, db, n - 1); }
  }

  /** If the first `n` places are all different there are `n` of them. */
  lemma {:induction false} Distinct(s: Stand, db: Store, n: nat) returns (seen: set<(Digest, nat)>)
    requires Going(s, db, n)
    requires forall i, j :: 0 <= i < j < n ==> Place(s, db, i) != Place(s, db, j)
    ensures |seen| == n
    ensures forall p :: p in seen ==> exists i: nat :: i < n && Place(s, db, i) == p
  {
    hide Next;
    if n == 0 {
      seen := {};
    } else {
      seen := Distinct(s, db, n - 1);
      seen := seen + {Place(s, db, n - 1)};
    }
  }

  lemma WithinPlaces(s: Stand, db: Store, n: nat, i: nat)
    requires Going(s, db, n) && i < n
    ensures Place(s, db, i) in Places(db, |s.key| + 1)
  {
    hide DecodeNode, Walk, Places;
    assert After(s, db, i + 1).Some?;
    KeyShrinks(s, db, i);
    PlacesAre(db, |s.key| + 1);
  }

  /** In more rounds than there are places the loop comes back to a stand. */
  lemma Returns(s: Stand, db: Store, n: nat) returns (i: nat, j: nat)
    requires After(s, db, n).Some? && n > |db| * (|s.key| + 1)
    ensures i < j < n && After(s, db, i).Some? && After(s, db, i) == After(s, db, j)
  {
    hide Places, Next;
    GoingOn(s, db, n);
    if forall i, j :: 0 <= i < j < n ==> Place(s, db, i) != Place(s, db, j) {
      var seen := Distinct(s, db, n);
      forall p | p in seen ensures p in Places(db, |s.key| + 1) {
        var k: nat :| k < n && Place(s, db, k) == p;
        WithinPlaces(s, db, n, k);
      }
      CountPlaces(db, |s.key| + 1);
      GridIs(|db|, |s.key| + 1);
      Subset(seen, Places(db, |s.key| + 1));
    }
    i, j :| 0 <= i < j < n && Place(s, db, i) == Place(s, db, j);
    KeyShrinks(s, db, i);
    KeyShrinks(s, db, j);
  }

  lemma {:induction false} Subset<T>(a: set<T>, b: set<T>)
    requires a <= b
    ensures |a| <= |b|
  {
    if a != {} {
      var x :| x in a;
      Subset(a - {x}, b - {x});
    }
  }

  lemma {:induction false} AfterSum(s: Stand, db: Store, i: nat, n: nat)
    requires After(s, db, i).Some?
    ensures After(s, db, i + n) == After(After(s, db, i).value, db, n)
  {
    hide Next;
    if n > 0 {
      AfterSum(s, db, i, n - 1);
      assert i + n - 1 == i + (n - 1);
    }
  }

  /** From then on it goes around. */
  lemma {:induction false} GoesAround(s: Stand, db: Store, i: nat, j: nat, n: nat)
    requires i < j && After(s, db, i).Some? && After(s, db, i) == After(s, db, j)
    ensures After(s, db, n).Some?
    decreases n
  {
    hide Next, After;
    if n <= j {
      GoingOn(s, db, j);
    } else {
      GoesAround(s, db, i, j, n - (j - i));
      AfterSum(s, db, i, n - j);
      AfterSum(s, db, j, n - j);
    }
  }

  /** The loop ends or not within as many rounds as there are places: a checker cut off there
      has the answer of the loop, or knows that there is none. */
  lemma EndsIff(rootHash: Digest, key: Key, db: Store)
    ensures (exists n :: Verify(rootHash, key, db, n) != Exhausted) <==>
      Verify(rootHash, key, db, |db| * (|key| + 1) + 1) != Exhausted
  {
    hide Verify, After;
    var s, bound := Stand(rootHash, key), |db| * (|key| + 1) + 1;
    if Verify(rootHash, key, db, bound) == Exhausted {
      ExhaustedIff(s, db, bound);
      var i, j := Returns(s, db, bound);
      forall n: nat ensures Verify(rootHash, key, db, n) == Exhausted {
        GoesAround(s, db, i, j, n);
        ExhaustedIff(s, db, n);
      }
    }
  }

  // --- cycles that use up no key ---

  /** From `d` back to `d` in `n` rounds without using up any key. */
  ghost predicate Cycle(db: Store, d: Digest, n: nat) {
    n > 0 && After(Stand(d, []), db, n) == Some(Stand(d, []))
  }

  /** A walk that uses up no key does not look at it. */
  lemma {:induction false} WalkFree(n: Node, key: Key, e: Digest)
    ensures Walk(n, key) == Onward(key, e) <==> Walk(n, []) == Onward([], e)
    decreases n
  {
    match n
    case Short(k, c, _) =>
      if k == [] {
        assert key[0..] == key;
        WalkFree(c, key, e);
      } else if k <= key {
        WalkCuts(c, key[|k|..]);
      }
    case Full(cs, _) =>
      if key != [] && |cs| == 17 { WalkCuts(cs[key[0]], key[1..]); }
    case _ =>
  }

  lemma NextFree(d: Digest, key: Key, e: Digest, db: Store)
    ensures Next(Stand(d, key), db) == Some(Stand(e, key)) <==> Next(Stand(d, []), db) == Some(Stand(e, []))
  {
    hide DecodeNode, Walk;
    if d in db {
      var n := DecodeNode(Some(d), db[d], 0);
      if n.Ok? { WalkFree(n.value, key, e); }
    }
  }

  /** Neither do several rounds. */
  lemma AfterFree(d: Digest, key: Key, e: Digest, db: Store, n: nat)
    ensures After(Stand(d, key), db, n) == Some(Stand(e, key)) <==> After(Stand(d, []), db, n) == Some(Stand(e, []))
  {
    hide After;
    if After(Stand(d, key), db, n) == Some(Stand(e, key)) { DropKey(d, key, e, db, n); }
    if After(Stand(d, []), db, n) == Some(Stand(e, [])) { AddKey(d, key, e, db, n); }
  }

  lemma AfterLast(s: Stand, db: Store, n: nat) returns (m: Stand)
    requires n > 0 && After(s, db, n).Some?
    ensures After(s, db, n - 1) == Some(m) && After(s, db, n) == Next(m, db) && IsTail(m.key, s.key)
  {
    hide Next;
    m := After(s, db, n - 1).value;
    KeyShrinks(s, db, n - 1);
  }

  lemma {:induction false} DropKey(d: Digest, key: Key, e: Digest, db: Store, n: nat)
    requires After(Stand(d, key), db, n) == Some(Stand(e, key))
    ensures After(Stand(d, []), db, n) == Some(Stand(e, []))
    decreases n
  {
    hide Next;
    if n > 0 {
      hide After;
      var m := AfterLast(Stand(d, key), db, n);
      NextShrinks(m, db);
      assert m == Stand(m.digest, key);
      DropKey(d, key, m.digest, db, n - 1);
      NextFree(m.digest, key, e, db);
      AfterStep(Stand(d, []), db, n, Stand(m.digest, []));
    }
  }

  lemma {:induction false} AddKey(d: Digest, key: Key, e: Digest, db: Store, n: nat)
    requires After(Stand(d, []), db, n) == Some(Stand(e, []))
    ensures After(Stand(d, key), db, n) == Some(Stand(e, key))
    decreases n
  {
    hide Next;
    if n > 0 {
      hide After;
      var m := AfterLast(Stand(d, []), db, n);
      assert m == Stand(m.digest, []);
      AddKey(d, key, m.digest, db, n - 1);
      NextFree(m.digest, key, e, db);
      AfterStep(Stand(d, key), db, n, Stand(m.digest, key));
    }
  }

  lemma AfterStep(s: Stand, db: Store, n: nat, m: Stand)
    requires n > 0 && After(s, db, n - 1) == Some(m)
    ensures After(s, db, n) == Next(m, db)
  {}

  lemma NextShrinks(s: Stand, db: Store)
    ensures Next(s, db).Some? ==> |Next(s, db).value.key| <= |s.key|
  {
    hide DecodeNode, Walk;
    if Next(s, db).Some? { WalkCuts(DecodeNode(Some(s.digest), db[s.digest], 0).value, s.key); }
  }

  ghost predicate Ends(rootHash: Digest, key: Key, db: Store) {
    exists n :: Verify(rootHash, key, db, n) != Exhausted
  }

  /** The loop comes by a digest. */
  ghost predicate Passes(rootHash: Digest, key: Key, db: Store, d: Digest) {
    exists i :: After(Stand(rootHash, key), db, i).Some? && After(Stand(rootHash, key), db, i).value.digest == d
  }

  /** A loop that does not end comes by a digest on a cycle. */
  lemma FindCycle(rootHash: Digest, key: Key, db: Store) returns (d: Digest, n: nat)
    requires !Ends(rootHash, key, db)
    ensures Cycle(db, d, n) && Passes(rootHash, key, db, d)
  {
    hide Verify, After;
    var s, bound := Stand(rootHash, key), |db| * (|key| + 1) + 1;
    ExhaustedIff(s, db, bound);
    var i, j := Returns(s, db, bound);
    AfterSum(s, db, i, j - i);
    var m := After(s, db, i).value;
    d, n := m.digest, j - i;
    AfterFree(d, m.key, d, db, n);
  }

  /** And one that does, does not end. */
  lemma CycleHolds(rootHash: Digest, key: Key, db: Store, d: Digest, n: nat, k: nat)
    requires Cycle(db, d, n) && Passes(rootHash, key, db, d)
    ensures Verify(rootHash, key, db, k) == Exhausted
  {
    hide Verify, After;
    var s := Stand(rootHash, key);
    var i: nat :| After(s, db, i).Some? && After(s, db, i).value.digest == d;
    var m := After(s, db, i).value;
    AfterFree(d, m.key, d, db, n);
    AfterNone(m, db);
    GoesAround(m, db, 0, n, k);
    AfterSum(s, db, i, k);
    GoingOn(s, db, i + k);
    ExhaustedIff(s, db, k);
  }

  lemma AfterNone(s: Stand, db: Store)
    ensures After(s, db, 0) == Some(s)
  {}

  /** The loop ends if and only if it comes by no digest on a cycle. */
  lemma EndsUnlessCycle(rootHash: Digest, key: Key, db: Store)
    ensures Ends(rootHash, key, db) <==> forall d, n: nat :: Cycle(db, d, n) ==> !Passes(rootHash, key, db, d)
  {
    hide Verify, After, Cycle, Passes;
    if !Ends(rootHash, key, db) {
      var d, n := FindCycle(rootHash, key, db);
    }
    forall d, n: nat | Cycle(db, d, n) && Passes(rootHash, key, db, d) ensures !Ends(rootHash, key, db) {
      forall k: nat ensures Verify(rootHash, key, db, k) == Exhausted { CycleHolds(rootHash, key, db, d, n, k); }
    }
  }

  /** So it ends for every root and key exactly on the blobs without such a cycle. */
  lemma AlwaysEndsIff(db: Store)
    ensures (forall r, key :: Ends(r, key, db)) <==> (forall d, n: nat :: !Cycle(db, d, n))
  {
    hide Verify, After, Ends, Cycle;
    forall r, key ensures Ends(r, key, db) <==> forall d, n: nat :: Cycle(db, d, n) ==> !Passes(r, key, db, d) {
      EndsUnlessCycle(r, key, db);
    }
    if d, n: nat :| Cycle(db, d, n) {
      assert Passes(d, [], db, d) by { AfterNone(Stand(d, []), db); }
      assert !Ends(d, [], db);
    }
  }

  /** It is enough to look for cycles that are no longer than there are blobs. */
  lemma ShortCycle(db: Store, d: Digest, n: nat) returns (e: Digest, k: nat)
    requires Cycle(db, d, n)
    ensures Cycle(db, e, k) && e in db && k <= |db|
  {
    hide After, Next;
    var s := Stand(d, []);
    AfterNone(s, db);
    GoesAround(s, db, 0, n, |db| + 1);
    var i, j := Returns(s, db, |db| + 1);
    AfterSum(s, db, i, j - i);
    KeyShrinks(s, db, i);
    e, k := After(s, db, i).value.digest, j - i;
    assert e in db by { Stays(s, db, i, |db| + 1); }
  }

  lemma Stays(s: Stand, db: Store, i: nat, n: nat)
    requires After(s, db, n).Some? && i < n
    ensures After(s, db, i).Some? && After(s, db, i).value.digest in db
  {
    hide DecodeNode, Walk;
    GoingOn(s, db, n);
    assert After(s, db, i + 1).Some?;
  }

  /** More steps do not change an answer. */
  lemma {:induction false} AnswerStays(rootHash: Digest, key: Key, db: Store, n: nat, more: nat)
    requires Verify(rootHash, key, db, n) != Exhausted && n <= more
    ensures Verify(rootHash, key, db, more) == Verify(rootHash, key, db, n)
    decreases n
  {
    hide DecodeNode, Walk;
    if n > 0 && rootHash in db {
      var d := DecodeNode(Some(rootHash), db[rootHash], 0);
      if d.Ok? && Walk(d.value, key).Onward? {
        AnswerStays(Walk(d.value, key).digest, Walk(d.value, key).rest, db, n - 1, more - 1);
      }
    }
  }

  /** A node that refers to itself under an empty key never lets the loop end. */
  lemma {:induction false} SelfLinkCircles(d: Digest, key: Key, steps: nat)
    ensures Verify(d, key, map[d := Link(d)], steps) == Exhausted
    decreases steps
  {
    hide DecodeNode, Link;
    if steps > 0 {
      DecodeLink(Some(d), d, 0);
      assert key[0..] == key;
      assert Walk(Short([], HashRef(d), Flag(Some(d), 0, false)), key) == Onward(key, d);
      SelfLinkCircles(d, key, steps - 1);
    }
  }
}
