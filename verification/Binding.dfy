/** The root hash commits to the contents: trees of one run have the same root hash
    exactly when they are the same tree. */
module Binding {
  import opened Bytes
  import opened Hex
  import opened Tree
  import opened TreeDelete
  import opened Node
  import opened Memory
  import opened Trie
  import Rlp

  lemma EncodeInjective(v: Rlp.Value, w: Rlp.Value)
    requires |Rlp.Encode(v)| < TWO64 && Rlp.Encode(v) == Rlp.Encode(w)
    ensures v == w
  {
    Rlp.EncodePrefixFree(v, w, [], []);
  }

  lemma ShortItems(h: Hasher, t: Tree)
    requires t.Ext?
    ensures NodeVal(h, t) == Rlp.Lst([Rlp.Str(Compact(t.key)), RefVal(h, t.sub)])
  {}

  lemma FullItems(h: Hasher, t: Tree)
    requires t.Branch?
    ensures NodeVal(h, t) == Rlp.Lst(RefVals(h, t.kids))
  {}

  /** Inner nodes with the same stored form are the same. */
  lemma {:induction false} NodeBinds(h: Hasher, u: iset<Blob>, s: Tree, t: Tree)
    requires Universe(h, u) && Canon(s) && Canon(t) && Inner(s) && Inner(t)
    requires Within(h, u, s) && Within(h, u, t) && Enc(h, s) == Enc(h, t)
    ensures s == t
    decreases s, 0
  {
    hide Rlp.Encode;
    assert Enc(h, s) in u;
    EncodeInjective(NodeVal(h, s), NodeVal(h, t));
    if s.Ext? { ShortItems(h, s); } else { FullItems(h, s); }
    if t.Ext? { ShortItems(h, t); } else { FullItems(h, t); }
    if s.Ext? && t.Ext? {
      var a, b := NodeVal(h, s).items, NodeVal(h, t).items;
      assert a[0] == b[0] && a[1] == b[1];
      CompactInjective(s.key, t.key);
      if Terminated(s.key) {
        assert s.key[|s.key| - 1] == 16;
        LeafRef(h, s.sub.value, 0);
        LeafRef(h, t.sub.value, 0);
      } else {
        RefBinds(h, u, s.sub, t.sub);
      }
    } else if s.Branch? && t.Branch? {
      forall i | 0 <= i < 17 ensures s.kids[i] == t.kids[i] {
        assert RefVals(h, s.kids)[i] == RefVals(h, t.kids)[i];
        if i < 16 {
          RefBinds(h, u, s.kids[i], t.kids[i]);
        } else {
          LeafBinds(h, s.kids[16], t.kids[16]);
        }
      }
    }
  }

  lemma LeafBinds(h: Hasher, s: Tree, t: Tree)
    requires LeafOk(s) && LeafOk(t) && RefVal(h, s) == RefVal(h, t)
    ensures s == t
  {
    LeafRef(h, if s.Leaf? then s.value else [], 0);
    LeafRef(h, if t.Leaf? then t.value else [], 0);
  }

  /** So are children with the same reference: a digest, an embedded node and no node at all
      are told apart. */
  lemma {:induction false} RefBinds(h: Hasher, u: iset<Blob>, s: Tree, t: Tree)
    requires Universe(h, u) && Canon(s) && Canon(t) && Within(h, u, s) && Within(h, u, t)
    requires RefVal(h, s) == RefVal(h, t)
    ensures s == t
    decreases s, 1
  {
    hide Rlp.Encode;
    LeafRef(h, [], 0);
    if Inner(s) && Inner(t) {
      assert Enc(h, s) in u && Enc(h, t) in u;
      RefEnc(h, s);
      RefEnc(h, t);
      NodeBinds(h, u, s, t);
    } else if Inner(s) {
      RefEnc(h, s);
    } else if Inner(t) {
      RefEnc(h, t);
    }
  }

  /** What kind of reference an inner node gets. */
  lemma RefEnc(h: Hasher, t: Tree)
    requires Inner(t)
    ensures Hashed(h, t) ==> RefVal(h, t) == Rlp.Str(h(Enc(h, t)))
    ensures !Hashed(h, t) ==> RefVal(h, t) == NodeVal(h, t) && RefVal(h, t).Lst?
  {}

  /** Same root hash if and only if same tree. */
  lemma RootBinds(h: Hasher, u: iset<Blob>, s: Tree, t: Tree)
    requires Universe(h, u) && Enc(h, Empty) in u
    requires Canon(s) && Canon(t) && Within(h, u, s) && Within(h, u, t)
    ensures RootHash(h, s) == RootHash(h, t) <==> s == t
  {
    if RootHash(h, s) == RootHash(h, t) {
      assert Enc(h, s) in u && Enc(h, t) in u && Enc(h, s) == Enc(h, t);
      if Inner(s) && Inner(t) {
        NodeBinds(h, u, s, t);
      } else if s != t {
        EncodeInjective(NodeVal(h, s), NodeVal(h, t));
      }
    }
  }

  /** Two update histories end with the same root hash exactly when they describe the same map. */
  lemma RootIffContents(h: Hasher, u: iset<Blob>, us: seq<Update>, ws: seq<Update>)
    requires Universe(h, u) && Enc(h, Empty) in u && Within(h, u, Run(us)) && Within(h, u, Run(ws))
    ensures RootHash(h, Run(us)) == RootHash(h, Run(ws)) <==> Contents(us) == Contents(ws)
  {
    RunSound(us);
    RunSound(ws);
    RootBinds(h, u, Run(us), Run(ws));
    if Contents(us) == Contents(ws) { HistoryIndependent(us, ws); }
    if Run(us) == Run(ws) { SameTreeSameContents(us, ws); }
  }
}
