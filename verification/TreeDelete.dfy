/** Deletion from a canonical tree: shape and contents, and what a whole run of updates
    leaves behind. */
module TreeDelete {
  import opened Bytes
  import opened Hex
  import opened Tree
  import opened TreeInsert

  /** Index of the first non-empty child from `i` on; 17 when there is none. */
  function FirstKid(kids: seq<Tree>, i: nat): (p: nat)
    requires |kids| == 17 && i <= 17
    ensures i <= p <= 17 && (p < 17 ==> kids[p] != Empty)
    ensures forall j :: i <= j < p ==> kids[j] == Empty
    decreases 17 - i
  {
    if i == 17 then 17 else if kids[i] != Empty then i else FirstKid(kids, i + 1)
  }

  /** A full node left with a single child becomes a short node; a short child is merged in. */
  function Shrink(kids: seq<Tree>): Tree
    requires |kids| == 17
  {
    var p := FirstKid(kids, 0);
    if p < 17 && FirstKid(kids, p + 1) == 17 then
      if p != 16 && kids[p].Ext? then Ext([p] + kids[p].key, kids[p].sub) else Ext([p], kids[p])
    else Branch(kids)
  }

  function Delete(t: Tree, key: Key): Tree {
    match t
    case Empty => Empty
    case Leaf(_) => Empty
    case Ext(k, s) =>
      if !(k <= key) then t
      else if k == key then Empty
      else
        var c := Delete(s, key[|k|..]);
        if c.Ext? then Ext(k + c.key, c.sub) else Ext(k, c)
    case Branch(kids) =>
      if key == [] || |kids| != 17 then t
      else Shrink(kids[key[0] := Delete(kids[key[0]], key[1..])])
  }

  /** Children that fit a full node, without the lower bound on their number. */
  predicate KidsOk(kids: seq<Tree>) {
    |kids| == 17 && LeafOk(kids[16]) && forall i :: 0 <= i < 16 ==> Canon(kids[i])
  }

  lemma PlainConcat(a: Key, b: Key)
    requires Plain(a) && ValidHex(b) && b != []
    ensures if Terminated(b) then Terminated(a + b) else Plain(a + b)
  {
    if Terminated(b) { PlainJoin(a, b); }
  }

  /** A plain key in front of a canonical inner node. */
  lemma PrependCanon(k: Key, c: Tree)
    requires Plain(k) && k != [] && Canon(c) && c != Empty
    ensures Canon(if c.Ext? then Ext(k + c.key, c.sub) else Ext(k, c))
  {
    if c.Ext? { PlainConcat(k, c.key); }
  }

  lemma ShrinkCanon(kids: seq<Tree>)
    requires KidsOk(kids) && exists i :: 0 <= i < 17 && kids[i] != Empty
    ensures Canon(Shrink(kids)) && Shrink(kids) != Empty
  {
    var p := FirstKid(kids, 0);
    var q := FirstKid(kids, p + 1);
    if q == 17 {
      if p == 16 {
        assert Terminated([16]);
      } else {
        PrependCanon([p], kids[p]);
      }
    } else {
      assert 0 <= p < q < 17 && kids[p] != Empty && kids[q] != Empty;
    }
  }

  /** Deletion keeps the canonical shape, and never empties a full node. */
  lemma {:induction false} DeleteCanon(t: Tree, key: Key)
    requires CanonAt(t, key) && Suffix(key)
    ensures CanonAt(Delete(t, key), key)
    ensures t.Branch? && key != [] ==> Delete(t, key) != Empty
    decreases t
  {
    match t
    case Empty =>
    case Leaf(_) =>
    case Ext(k, s) =>
      if k <= key && k != key {
        KeyRest(key, k);
        DeleteCanon(s, key[|k|..]);
        PrependCanon(k, Delete(s, key[|k|..]));
      }
    case Branch(kids) =>
      LastNibble(key);
      var i := key[0];
      DeleteCanon(kids[i], key[1..]);
      var kids' := kids[i := Delete(kids[i], key[1..])];
      var a, b :| 0 <= a < b < 17 && kids[a] != Empty && kids[b] != Empty;
      assert kids'[if i == a then b else a] != Empty;
      ShrinkCanon(kids');
  }

  // --- contents ---

  lemma PrependLookup(k: Key, c: Tree, q: Key)
    ensures Lookup(if c.Ext? then Ext(k + c.key, c.sub) else Ext(k, c), q)
         == if k <= q then Lookup(c, q[|k|..]) else None
  {
    if c.Ext? {
      PrefixConcat(k, c.key, q);
      if k + c.key <= q { assert q[|k|..][|c.key|..] == q[|k + c.key|..]; }
    }
  }

  lemma PrefixConcat(a: Key, b: Key, q: Key)
    ensures a + b <= q <==> a <= q && b <= q[|a|..]
  {
    if a + b <= q {
      assert a == (a + b)[..|a|] == q[..|a|];
      assert b == (a + b)[|a|..] == q[|a|..|a + b|];
    }
    if a <= q && b <= q[|a|..] {
      assert q == a + q[|a|..];
    }
  }

  lemma ShrinkLookup(kids: seq<Tree>, q: Key)
    requires KidsOk(kids) && Terminated(q)
    ensures Lookup(Shrink(kids), q) == Lookup(Branch(kids), q)
  {
    var p := FirstKid(kids, 0);
    if p < 17 && FirstKid(kids, p + 1) == 17 {
      assert [p] <= q <==> q[0] == p;
      if p != 16 {
        PrependLookup([p], kids[p], q);
      }
    }
  }

  lemma {:induction false} DeleteLookup(t: Tree, key: Key, q: Key)
    requires CanonAt(t, key) && Suffix(key) && Suffix(q) && (key == [] <==> q == [])
    ensures Lookup(Delete(t, key), q) == if q == key then None else Lookup(t, q)
    decreases t, 1
  {
    match t
    case Empty =>
    case Leaf(_) =>
    case Ext(_, _) => DeleteLookupExt(t, key, q);
    case Branch(_) => DeleteLookupBranch(t, key, q);
  }

  lemma {:induction false} DeleteLookupExt(t: Tree, key: Key, q: Key)
    requires Canon(t) && t.Ext? && Terminated(key) && Terminated(q)
    ensures Lookup(Delete(t, key), q) == if q == key then None else Lookup(t, q)
    decreases t, 0
  {
    var k, s := t.key, t.sub;
    if k <= key {
      KeyRest(key, k);
      if k == key {
        PrefixFree(k, q);
      } else {
        PrependLookup(k, Delete(s, key[|k|..]), q);
        if k <= q {
          PrefixFree(q, key);
          KeyRest(q, k);
          DeleteLookup(s, key[|k|..], q[|k|..]);
          TailsEqual(key, q, |k|);
        }
      }
    }
  }

  lemma {:induction false} DeleteLookupBranch(t: Tree, key: Key, q: Key)
    requires Canon(t) && t.Branch? && Terminated(key) && Terminated(q)
    ensures Lookup(Delete(t, key), q) == if q == key then None else Lookup(t, q)
    decreases t, 0
  {
    hide Shrink;
    var kids := t.kids;
    LastNibble(key);
    LastNibble(q);
    DeleteCanon(kids[key[0]], key[1..]);
    ShrinkLookup(kids[key[0] := Delete(kids[key[0]], key[1..])], q);
    if key[0] == q[0] {
      DeleteLookup(kids[key[0]], key[1..], q[1..]);
      TailsEqual(key, q, 1);
    }
  }

  // --- updates that change nothing ---

  /** Writing the value already stored leaves the tree as it is. */
  lemma InsertSame(t: Tree, key: Key, v: Blob)
    requires Canon(t) && Terminated(key) && v != [] && Lookup(t, key) == Some(v)
    ensures Insert(t, key, Leaf(v)) == t
  {
    InsertCanon(t, key, v);
    forall q | Terminated(q) ensures Lookup(Insert(t, key, Leaf(v)), q) == Lookup(t, q) {
      InsertLookup(t, key, v, q);
    }
    Unique(Insert(t, key, Leaf(v)), t);
  }

  /** Deleting an absent key leaves the tree as it is. */
  lemma DeleteAbsent(t: Tree, key: Key)
    requires Canon(t) && Terminated(key) && Lookup(t, key) == None
    ensures Delete(t, key) == t
  {
    DeleteCanon(t, key);
    forall q | Terminated(q) ensures Lookup(Delete(t, key), q) == Lookup(t, q) {
      DeleteLookup(t, key, q);
    }
    Unique(Delete(t, key), t);
  }

  // --- runs of updates ---

  /** `TryUpdate`: an empty value deletes. */
  datatype Update = Put(key: Blob, value: Blob)

  function Apply(t: Tree, u: Update): Tree {
    if u.value != [] then Insert(t, KeyHex(u.key), Leaf(u.value)) else Delete(t, KeyHex(u.key))
  }

  function Run(us: seq<Update>): Tree {
    if us == [] then Empty else Apply(Run(us[..|us| - 1]), us[|us| - 1])
  }

  function Note(m: map<Blob, Blob>, u: Update): map<Blob, Blob> {
    if u.value != [] then m[u.key := u.value] else m - {u.key}
  }

  /** The map the updates describe. */
  function Contents(us: seq<Update>): map<Blob, Blob> {
    if us == [] then map[] else Note(Contents(us[..|us| - 1]), us[|us| - 1])
  }

  function Get(m: map<Blob, Blob>, k: Blob): Option<Blob> { if k in m then Some(m[k]) else None }

  lemma ApplySound(t: Tree, u: Update, q: Key)
    requires Canon(t) && Terminated(q)
    ensures Canon(Apply(t, u))
    ensures Lookup(Apply(t, u), q) ==
      if q == KeyHex(u.key) then (if u.value != [] then Some(u.value) else None) else Lookup(t, q)
  {
    var key := KeyHex(u.key);
    if u.value != [] {
      InsertCanon(t, key, u.value);
      InsertLookup(t, key, u.value, q);
    } else {
      DeleteCanon(t, key);
      DeleteLookup(t, key, q);
    }
  }

  /** A canonical tree that holds exactly the pairs of `m`. */
  ghost predicate Stores(t: Tree, m: map<Blob, Blob>) {
    && Canon(t)
    && (forall k :: Lookup(t, KeyHex(k)) == Get(m, k))
    && (forall q :: Terminated(q) && Lookup(t, q).Some? ==> IsKey(q))
  }

  ghost predicate IsKey(q: Key) { exists k :: KeyHex(k) == q }

  lemma StoresStep(t: Tree, m: map<Blob, Blob>, u: Update)
    requires Stores(t, m)
    ensures Stores(Apply(t, u), Note(m, u))
  {
    hide Lookup, Canon, Apply, KeyHex;
    ApplySound(t, u, [16]);
    forall k ensures Lookup(Apply(t, u), KeyHex(k)) == Get(Note(m, u), k) {
      ApplySound(t, u, KeyHex(k));
      if KeyHex(k) == KeyHex(u.key) { KeyHexInjective(k, u.key); }
    }
    forall q | Terminated(q) && Lookup(Apply(t, u), q).Some? ensures IsKey(q) {
      ApplySound(t, u, q);
    }
  }

  /** Every run of updates yields a canonical tree that stores exactly the described map. */
  lemma {:induction false} RunSound(us: seq<Update>)
    ensures Stores(Run(us), Contents(us))
  {
    if us != [] {
      RunSound(us[..|us| - 1]);
      StoresStep(Run(us[..|us| - 1]), Contents(us[..|us| - 1]), us[|us| - 1]);
    }
  }

  /** The canonical tree of a map is unique. */
  lemma StoresUnique(s: Tree, t: Tree, m: map<Blob, Blob>)
    requires Stores(s, m) && Stores(t, m)
    ensures s == t
  {
    forall q | Terminated(q) ensures Lookup(s, q) == Lookup(t, q) {
      if IsKey(q) {
        var k :| KeyHex(k) == q;
        assert Lookup(s, KeyHex(k)) == Get(m, k) == Lookup(t, KeyHex(k));
      }
    }
    Unique(s, t);
  }

  /** History independence: two runs that describe the same map build the same tree. */
  lemma HistoryIndependent(us: seq<Update>, ws: seq<Update>)
    requires Contents(us) == Contents(ws)
    ensures Run(us) == Run(ws)
  {
    RunSound(us);
    RunSound(ws);
    StoresUnique(Run(us), Run(ws), Contents(us));
  }

  /** And conversely: the same tree means the same map, so trees and maps correspond one to one. */
  lemma SameTreeSameContents(us: seq<Update>, ws: seq<Update>)
    requires Run(us) == Run(ws)
    ensures Contents(us) == Contents(ws)
  {
    RunSound(us);
    RunSound(ws);
    forall k ensures Get(Contents(us), k) == Get(Contents(ws), k) {
      assert Lookup(Run(us), KeyHex(k)) == Get(Contents(us), k);
    }
    GetEqual(Contents(us), Contents(ws));
  }

  lemma GetEqual(m: map<Blob, Blob>, n: map<Blob, Blob>)
    requires forall k :: Get(m, k) == Get(n, k)
    ensures m == n
  {
    assert forall k :: k in m ==> Get(m, k) == Get(n, k);
    assert forall k :: k in n ==> Get(m, k) == Get(n, k);
  }
}
