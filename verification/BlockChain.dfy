/** Block import (kernel/blockchain.go): fork choice, reorganisation of the number-to-hash index,
    and the transaction lookup index. */
module BlockChain {
  import opened Bytes
  import opened Ancestry
  import HC = HeaderChain

  /** A block with the hashes of its transactions. */
  datatype Block = Block(header: Header, txs: seq<Digest>)

  type Blocks = map<Digest, Block>

  /** Where a transaction is. */
  datatype Entry = Entry(block: Digest, number: int, index: int)

  type Lookup = map<Digest, Entry>

  ghost function Tree(all: Blocks): Headers { map d | d in all :: all[d].header }

  /** Transaction `t` is at `e` on the chain of `head`. */
  ghost predicate At(all: Blocks, genesis: Digest, head: Digest, t: Digest, e: Entry)
    requires Rooted(Tree(all), genesis) && head in all
  {
    && 0 <= e.number <= Tree(all)[head].number && e.block == Ancestor(Tree(all), genesis, head, e.number)
    && 0 <= e.index < |all[e.block].txs| && all[e.block].txs[e.index] == t
  }

  /** No transaction is twice on the chain of `head`. */
  ghost predicate NoRepeat(all: Blocks, genesis: Digest, head: Digest)
    requires Rooted(Tree(all), genesis) && head in all
  {
    forall t, e, e' :: At(all, genesis, head, t, e) && At(all, genesis, head, t, e') ==> e == e'
  }

  /** The lookup index holds exactly the transactions on the chain of `head`, where they are. */
  ghost predicate Exact(lookup: Lookup, all: Blocks, genesis: Digest, head: Digest)
    requires Rooted(Tree(all), genesis) && head in all
  {
    && (forall t :: t in lookup ==> At(all, genesis, head, t, lookup[t]))
    && (forall t, e :: At(all, genesis, head, t, e) ==> t in lookup)
  }

  /** The index is the chain of `head` up to its height. */
  ghost predicate IndexUpTo(canon: map<int, Digest>, all: Blocks, genesis: Digest, head: Digest)
    requires Rooted(Tree(all), genesis) && head in all
  {
    forall k: nat :: k <= Tree(all)[head].number ==> k in canon && canon[k] == Ancestor(Tree(all), genesis, head, k)
  }

  /** Two chains differ at all heights in `(m, k]`. */
  ghost predicate Apart(all: Blocks, genesis: Digest, a: Digest, b: Digest, m: int, k: nat)
    requires Rooted(Tree(all), genesis) && a in all && b in all && k <= Tree(all)[a].number && k <= Tree(all)[b].number
  {
    forall j: nat :: m < j <= k ==> Ancestor(Tree(all), genesis, a, j) != Ancestor(Tree(all), genesis, b, j)
  }

  /** The index is the same above height `n`. */
  ghost predicate SameAbove(a: map<int, Digest>, b: map<int, Digest>, n: int) {
    forall k :: k > n ==> (k in a <==> k in b) && (k in a ==> a[k] == b[k])
  }

  lemma SameAbovePut(a: map<int, Digest>, b: map<int, Digest>, n: int, k: int, d: Digest)
    requires SameAbove(a, b, n) && k <= n
    ensures SameAbove(a, b[k := d], n)
  {}

  /** The index entry at a height; zero if there is none. */
  function EntryAt(canon: map<int, Digest>, n: int): Digest { if n in canon then canon[n] else Zero() }

  lemma EntryAbove(a: map<int, Digest>, b: map<int, Digest>, m: int, n: int)
    requires SameAbove(a, b, m) && m < n
    ensures EntryAt(a, n) == EntryAt(b, n)
  {}

  lemma SameAboveLess(a: map<int, Digest>, b: map<int, Digest>, m: int, n: int)
    requires SameAbove(a, b, m) && m <= n
    ensures SameAbove(a, b, n)
  {}

  /** Every index entry is a known block of its height. */
  ghost predicate KnownIndex(canon: map<int, Digest>, all: Blocks) {
    forall k :: k in canon ==> canon[k] in all && all[canon[k]].header.number == k
  }

  lemma KnownPut(canon: map<int, Digest>, all: Blocks, d: Digest)
    requires KnownIndex(canon, all) && d in all
    ensures KnownIndex(canon[all[d].header.number := d], all)
  {}

  lemma KnownGrows(canon: map<int, Digest>, blocks: Blocks, d: Digest, block: Block)
    requires KnownIndex(canon, blocks) && (d in blocks ==> blocks[d] == block)
    ensures KnownIndex(canon, blocks[d := block])
  {}

  /** Among the heaviest blocks the head is a lowest one. */
  ghost predicate Lowest(tree: Headers, genesis: Digest, head: Digest)
    requires Rooted(tree, genesis) && head in tree
  {
    forall d :: d in tree && Td(tree, genesis, d) == Td(tree, genesis, head) ==> tree[head].number <= tree[d].number
  }

  lemma LowestGrows(tree: Headers, tree': Headers, genesis: Digest, head: Digest, d: Digest)
    requires Rooted(tree, genesis) && Rooted(tree', genesis) && Larger(tree, tree') && d in tree'
    requires tree'.Keys == tree.Keys + {d} && head in tree
    requires HC.Heaviest(tree, genesis, head) && Lowest(tree, genesis, head)
    ensures var extern, local := Td(tree', genesis, d), Td(tree', genesis, head);
      var low, high := tree'[d].number, tree'[head].number;
      && (extern < local || (extern == local && high <= low) ==> Lowest(tree', genesis, head))
      && (extern > local || (extern == local && low <= high) ==> Lowest(tree', genesis, d))
  {
    hide Td, Rooted;
    TdGrows(tree, tree', genesis, head);
    forall e | e in tree ensures Td(tree', genesis, e) == Td(tree, genesis, e) { TdGrows(tree, tree', genesis, e); }
  }

  /** A block that becomes the head and is in the index already is the head. */
  lemma AlreadyHead(canon: map<int, Digest>, blocks: Blocks, genesis: Digest, head: Digest, d: Digest, block: Block)
    requires Rooted(Tree(blocks), genesis) && head in blocks && KnownIndex(canon, blocks) && d != Zero()
    requires HC.Heaviest(Tree(blocks), genesis, head) && Lowest(Tree(blocks), genesis, head)
    requires IndexUpTo(canon, blocks, genesis, head) && EntryAt(canon, block.header.number) == d
    requires d in blocks ==>
      && blocks[d] == block && Td(Tree(blocks), genesis, d) >= Td(Tree(blocks), genesis, head)
      && (Td(Tree(blocks), genesis, d) == Td(Tree(blocks), genesis, head) ==>
            block.header.number <= blocks[head].header.number)
    ensures d == head
  {
    hide Td, Rooted;
    assert Tree(blocks)[d] == block.header && Tree(blocks)[head] == blocks[head].header;
    DownStart(blocks, genesis, head);
  }

  /** The index has no entry above height `n`. */
  ghost predicate EndsAt(canon: map<int, Digest>, n: int) { forall k :: k in canon ==> k <= n }

  lemma SameAboveSelf(a: map<int, Digest>, n: int)
    ensures SameAbove(a, a, n)
  {}

  lemma SameEnd(a: map<int, Digest>, b: map<int, Digest>, n: int)
    requires SameAbove(a, b, n)
    ensures EndsAt(a, n) <==> EndsAt(b, n)
  {}

  // --- chains above a common ancestor ---

  /** The blocks of the chain of `d` above height `k`, from the top. */
  ghost function Down(all: Blocks, genesis: Digest, d: Digest, k: nat): seq<Block>
    requires Rooted(Tree(all), genesis) && d in all && k <= Tree(all)[d].number
    decreases Tree(all)[d].number
  {
    if Tree(all)[d].number == k then [] else [all[d]] + Down(all, genesis, Tree(all)[d].parent, k)
  }

  lemma {:induction false} DownNext(all: Blocks, genesis: Digest, d: Digest, k: nat)
    requires Rooted(Tree(all), genesis) && d in all && k < Tree(all)[d].number
    ensures Down(all, genesis, d, k) == Down(all, genesis, d, k + 1) + [all[Ancestor(Tree(all), genesis, d, k + 1)]]
    decreases Tree(all)[d].number
  {
    if k + 1 < Tree(all)[d].number {
      DownNext(all, genesis, Tree(all)[d].parent, k);
    } else {
      assert Down(all, genesis, Tree(all)[d].parent, k) == [];
    }
  }

  lemma {:induction false} DownLength(all: Blocks, genesis: Digest, d: Digest, k: nat)
    requires Rooted(Tree(all), genesis) && d in all && k <= Tree(all)[d].number
    ensures |Down(all, genesis, d, k)| == Tree(all)[d].number - k
    decreases Tree(all)[d].number
  {
    if k < Tree(all)[d].number { DownLength(all, genesis, Tree(all)[d].parent, k); }
  }

  lemma {:induction false} DownAt(all: Blocks, genesis: Digest, d: Digest, k: nat, i: nat)
    requires Rooted(Tree(all), genesis) && d in all && k <= Tree(all)[d].number && i < Tree(all)[d].number - k
    ensures |Down(all, genesis, d, k)| == Tree(all)[d].number - k
    ensures Down(all, genesis, d, k)[i] == all[Ancestor(Tree(all), genesis, d, Tree(all)[d].number - i)]
    decreases i
  {
    hide Down, Rooted, Ancestor;
    DownLength(all, genesis, d, k);
    DownCons(all, genesis, d, k);
    if i > 0 {
      DownAt(all, genesis, Tree(all)[d].parent, k, i - 1);
      AncestorParent(Tree(all), genesis, d, Tree(all)[d].number - i);
    }
  }

  lemma DownCons(all: Blocks, genesis: Digest, d: Digest, k: nat)
    requires Rooted(Tree(all), genesis) && d in all && k < Tree(all)[d].number
    ensures Tree(all)[d].parent in all && Tree(all)[Tree(all)[d].parent].number == Tree(all)[d].number - 1
    ensures Down(all, genesis, d, k) == [all[d]] + Down(all, genesis, Tree(all)[d].parent, k)
    ensures Ancestor(Tree(all), genesis, d, Tree(all)[d].number) == d
  {}

  /** The transactions of some blocks. */
  function Txs(chain: seq<Block>): seq<Digest> {
    if chain == [] then [] else Txs(chain[..|chain| - 1]) + chain[|chain| - 1].txs
  }

  lemma TxsPush(chain: seq<Block>, b: Block)
    ensures Txs(chain + [b]) == Txs(chain) + b.txs
  {
    assert (chain + [b])[..|chain|] == chain;
  }

  lemma {:induction false} TxsMember(chain: seq<Block>, t: Digest)
    ensures t in Txs(chain) <==> exists b :: b in chain && t in b.txs
  {
    if chain != [] {
      var n := |chain| - 1;
      assert chain == chain[..n] + [chain[n]];
      TxsMember(chain[..n], t);
      assert forall b :: b in chain <==> b in chain[..n] || b == chain[n];
    }
  }

  /** The transactions above height `k`: those at some place above it. */
  lemma TxsAbove(all: Blocks, genesis: Digest, d: Digest, k: nat, t: Digest)
    requires Rooted(Tree(all), genesis) && d in all && k <= Tree(all)[d].number
    ensures t in Txs(Down(all, genesis, d, k)) <==> exists e :: At(all, genesis, d, t, e) && e.number > k
  {
    hide Rooted, Down, Ancestor, Tree;
    var chain := Down(all, genesis, d, k);
    TxsMember(chain, t);
    if t in Txs(chain) {
      var b :| b in chain && t in b.txs;
      var i :| 0 <= i < |chain| && chain[i] == b;
      var j :| 0 <= j < |b.txs| && b.txs[j] == t;
      DownIs(all, genesis, d, k, i, j);
    }
    if e :| At(all, genesis, d, t, e) && e.number > k {
      DownHas(all, genesis, d, k, t, e);
    }
  }

  lemma DownIs(all: Blocks, genesis: Digest, d: Digest, k: nat, i: nat, j: nat)
    requires Rooted(Tree(all), genesis) && d in all && k <= Tree(all)[d].number
    requires i < |Down(all, genesis, d, k)| && j < |Down(all, genesis, d, k)[i].txs|
    ensures var n := Tree(all)[d].number - i;
      n > k && At(all, genesis, d, Down(all, genesis, d, k)[i].txs[j], Entry(Ancestor(Tree(all), genesis, d, n), n, j))
  {
    hide Rooted, Down, Ancestor, Tree;
    DownLength(all, genesis, d, k);
    DownAt(all, genesis, d, k, i);
  }

  lemma DownHas(all: Blocks, genesis: Digest, d: Digest, k: nat, t: Digest, e: Entry)
    requires Rooted(Tree(all), genesis) && d in all && k <= Tree(all)[d].number
    requires At(all, genesis, d, t, e) && e.number > k
    ensures exists b :: b in Down(all, genesis, d, k) && t in b.txs
  {
    hide Rooted, Down, Ancestor;
    DownAt(all, genesis, d, k, Tree(all)[d].number - e.number);
    assert all[e.block] in Down(all, genesis, d, k);
  }

  // --- the lookup index across a reorganisation ---

  /** Two chains share exactly their places up to a common ancestor. */
  lemma SharedPlaces(all: Blocks, genesis: Digest, a: Digest, b: Digest, m: nat, t: Digest, e: Entry)
    requires Rooted(Tree(all), genesis) && a in all && b in all && m <= Tree(all)[a].number && m <= Tree(all)[b].number
    requires Ancestor(Tree(all), genesis, a, m) == Ancestor(Tree(all), genesis, b, m)
    ensures e.number <= m ==> (At(all, genesis, a, t, e) <==> At(all, genesis, b, t, e))
  {
    hide Rooted;
    if 0 <= e.number <= m {
      AncestorTrans(Tree(all), genesis, a, m, e.number);
      AncestorTrans(Tree(all), genesis, b, m, e.number);
    }
  }

  /** `l1` is `l0` with the places of the chain of `n` in `(m, j]` written over it. */
  ghost predicate Added(l0: Lookup, l1: Lookup, all: Blocks, genesis: Digest, n: Digest, m: int, j: int)
    requires Rooted(Tree(all), genesis) && n in all
  {
    && (forall t, e :: At(all, genesis, n, t, e) && m < e.number <= j ==> t in l1 && l1[t] == e)
    && (forall t :: (forall e :: At(all, genesis, n, t, e) ==> !(m < e.number <= j)) ==>
          (t in l1 <==> t in l0) && (t in l1 ==> l1[t] == l0[t]))
  }

  /** Writing the new chain over the index and deleting what is only on the old one moves it
      from the old head to the new one. */
  lemma MoveLookup(l0: Lookup, l1: Lookup, l2: Lookup, gone: set<Digest>, all: Blocks, genesis: Digest, o: Digest,
                   n: Digest, m: nat)
    requires Rooted(Tree(all), genesis) && o in all && n in all && m <= Tree(all)[o].number && m <= Tree(all)[n].number
    requires Ancestor(Tree(all), genesis, o, m) == Ancestor(Tree(all), genesis, n, m)
    requires NoRepeat(all, genesis, o) && NoRepeat(all, genesis, n)
    requires Exact(l0, all, genesis, o) && Added(l0, l1, all, genesis, n, m, Tree(all)[n].number) && l2 == l1 - gone
    requires forall t :: t in gone <==> Above(all, genesis, o, m, t) && !Above(all, genesis, n, m, t)
    ensures Exact(l2, all, genesis, n)
  {
    hide Rooted, Tree, At, NoRepeat, Exact, Added, Above;
    forall t, e | At(all, genesis, n, t, e) ensures t in l2 && l2[t] == e {
      MoveKept(l0, l1, gone, all, genesis, o, n, m, t, e);
    }
    forall t | t in l2 ensures At(all, genesis, n, t, l2[t]) {
      MoveGone(l0, l1, gone, all, genesis, o, n, m, t);
    }
    ExactIs(l2, all, genesis, n);
  }

  ghost predicate Above(all: Blocks, genesis: Digest, head: Digest, m: int, t: Digest)
    requires Rooted(Tree(all), genesis) && head in all
  {
    exists e :: At(all, genesis, head, t, e) && e.number > m
  }

  lemma ExactIs(l: Lookup, all: Blocks, genesis: Digest, n: Digest)
    requires Rooted(Tree(all), genesis) && n in all
    requires forall t, e :: At(all, genesis, n, t, e) ==> t in l
    requires forall t :: t in l ==> At(all, genesis, n, t, l[t])
    ensures Exact(l, all, genesis, n)
  {}

  lemma MoveKept(l0: Lookup, l1: Lookup, gone: set<Digest>, all: Blocks, genesis: Digest, o: Digest, n: Digest,
                 m: nat, t: Digest, e: Entry)
    requires Rooted(Tree(all), genesis) && o in all && n in all && m <= Tree(all)[o].number && m <= Tree(all)[n].number
    requires Ancestor(Tree(all), genesis, o, m) == Ancestor(Tree(all), genesis, n, m)
    requires NoRepeat(all, genesis, o) && NoRepeat(all, genesis, n)
    requires Exact(l0, all, genesis, o) && Added(l0, l1, all, genesis, n, m, Tree(all)[n].number)
    requires forall t :: t in gone <==> Above(all, genesis, o, m, t) && !Above(all, genesis, n, m, t)
    requires At(all, genesis, n, t, e)
    ensures t in l1 && t !in gone && l1[t] == e
  {
    hide Rooted, Ancestor;
    SharedPlaces(all, genesis, o, n, m, t, e);
    assert e.number <= Tree(all)[n].number;
    if e.number <= m {
      assert At(all, genesis, o, t, e);
      assert t in l0 && l0[t] == e;
      assert !Above(all, genesis, o, m, t);
    } else {
      assert Above(all, genesis, n, m, t);
    }
  }

  lemma MoveGone(l0: Lookup, l1: Lookup, gone: set<Digest>, all: Blocks, genesis: Digest, o: Digest, n: Digest,
                 m: nat, t: Digest)
    requires Rooted(Tree(all), genesis) && o in all && n in all && m <= Tree(all)[o].number && m <= Tree(all)[n].number
    requires Ancestor(Tree(all), genesis, o, m) == Ancestor(Tree(all), genesis, n, m)
    requires Exact(l0, all, genesis, o) && Added(l0, l1, all, genesis, n, m, Tree(all)[n].number)
    requires forall t :: t in gone <==> Above(all, genesis, o, m, t) && !Above(all, genesis, n, m, t)
    requires t in l1 && t !in gone
    ensures At(all, genesis, n, t, l1[t])
  {
    hide Rooted, Ancestor;
    if Above(all, genesis, n, m, t) {
      var e :| At(all, genesis, n, t, e) && e.number > m;
      assert e.number <= Tree(all)[n].number;
    } else {
      assert t in l0 && l1[t] == l0[t];
      SharedPlaces(all, genesis, o, n, m, t, l0[t]);
    }
  }

  lemma AtIndex(all: Blocks, genesis: Digest, n: Digest, j: nat, t: Digest)
    requires Rooted(Tree(all), genesis) && n in all && j <= Tree(all)[n].number
    ensures var d := Ancestor(Tree(all), genesis, n, j);
      && (forall i :: 0 <= i < |all[d].txs| ==> At(all, genesis, n, all[d].txs[i], Entry(d, j, i)))
      && (forall e :: At(all, genesis, n, t, e) && e.number == j ==>
            e.block == d && 0 <= e.index < |all[d].txs| && all[d].txs[e.index] == t)
  {
    hide Rooted, Ancestor;
  }

  /** Writing the block at height `j` of the chain of `n` over the index. */
  lemma AddedStep(l0: Lookup, l1: Lookup, l2: Lookup, all: Blocks, genesis: Digest, n: Digest, m: nat, j: nat)
    requires Rooted(Tree(all), genesis) && n in all && m < j <= Tree(all)[n].number && NoRepeat(all, genesis, n)
    requires Added(l0, l1, all, genesis, n, m, j - 1)
    requires Filed(l1, l2, Ancestor(Tree(all), genesis, n, j), all[Ancestor(Tree(all), genesis, n, j)])
    ensures Added(l0, l2, all, genesis, n, m, j)
  {
    hide Rooted, Ancestor, At;
    var d := Ancestor(Tree(all), genesis, n, j);
    assert all[d].header == Tree(all)[d];
    forall t, e | At(all, genesis, n, t, e) && m < e.number <= j ensures t in l2 && l2[t] == e {
      AtIndex(all, genesis, n, j, t);
      if t in all[d].txs { assert At(all, genesis, n, t, Entry(d, j, LastPlace(all[d].txs, t))); }
    }
    forall t | forall e :: At(all, genesis, n, t, e) ==> !(m < e.number <= j)
      ensures (t in l2 <==> t in l0) && (t in l2 ==> l2[t] == l0[t])
    {
      AtIndex(all, genesis, n, j, t);
      assert t !in all[d].txs;
    }
  }

  /** `l2` is `l1` with the transactions of one block filed. */
  ghost predicate Filed(l1: Lookup, l2: Lookup, d: Digest, b: Block) {
    && (forall t :: t in b.txs ==> t in l2 && l2[t] == Entry(d, b.header.number, LastPlace(b.txs, t)))
    && (forall t :: t !in b.txs ==> (t in l2 <==> t in l1) && (t in l2 ==> l2[t] == l1[t]))
  }

  /** Where `t` is last in `s`. */
  ghost function LastPlace(s: seq<Digest>, t: Digest): (k: nat)
    requires t in s
    ensures k < |s| && s[k] == t && forall j :: k < j < |s| ==> s[j] != t
  {
    if s[|s| - 1] == t then |s| - 1
    else
      assert s == s[..|s| - 1] + [s[|s| - 1]];
      LastPlace(s[..|s| - 1], t)
  }

  lemma LastIs(s: seq<Digest>, t: Digest, k: nat)
    requires k < |s| && s[k] == t && forall j :: k < j < |s| ==> s[j] != t
    ensures LastPlace(s, t) == k
  {}

  /** What the first `i` transactions of a block leave behind. */
  ghost predicate FiledUpTo(l1: Lookup, l2: Lookup, d: Digest, number: int, txs: seq<Digest>) {
    && (forall t :: t in txs ==> t in l2 && l2[t] == Entry(d, number, LastPlace(txs, t)))
    && (forall t :: t !in txs ==> (t in l2 <==> t in l1) && (t in l2 ==> l2[t] == l1[t]))
  }

  lemma FileOne(l1: Lookup, l2: Lookup, d: Digest, number: int, txs: seq<Digest>, t: Digest)
    requires FiledUpTo(l1, l2, d, number, txs)
    ensures FiledUpTo(l1, l2[t := Entry(d, number, |txs|)], d, number, txs + [t])
  {
    hide LastPlace;
    var more := txs + [t];
    assert more[|txs|] == t;
    LastIs(more, t, |txs|);
    forall x | x in more && x != t ensures x in txs && LastPlace(more, x) == LastPlace(txs, x) {
      assert x in txs;
      LastIs(more, x, LastPlace(txs, x));
    }
  }

  lemma FileNone(l: Lookup, d: Digest, number: int)
    ensures FiledUpTo(l, l, d, number, [])
  {}

  lemma FiledAll(l1: Lookup, l2: Lookup, d: Digest, b: Block)
    requires FiledUpTo(l1, l2, d, b.header.number, b.txs)
    ensures Filed(l1, l2, d, b)
  {}

  lemma AddedNone(l0: Lookup, all: Blocks, genesis: Digest, n: Digest, m: int)
    requires Rooted(Tree(all), genesis) && n in all
    ensures Added(l0, l0, all, genesis, n, m, m)
  {}

  /** `a` without the elements of `b`, in order. */
  function Minus(a: seq<Digest>, b: seq<Digest>): (r: seq<Digest>)
    ensures forall t :: multiset(r)[t] == if t in b then 0 else multiset(a)[t]
  {
    if a == [] then []
    else
      assert a == a[..|a| - 1] + [a[|a| - 1]];
      Minus(a[..|a| - 1], b) + if a[|a| - 1] in b then [] else [a[|a| - 1]]
  }

  lemma MinusIn(a: seq<Digest>, b: seq<Digest>, t: Digest)
    ensures t in Minus(a, b) <==> t in a && t !in b
  {
    hide Minus;
    assert t in Minus(a, b) <==> multiset(Minus(a, b))[t] > 0;
    assert t in a <==> multiset(a)[t] > 0;
  }

  /** The transactions of `a` that are not in `b`. */
  method TxDifference(a: seq<Digest>, b: seq<Digest>) returns (keep: seq<Digest>)
    ensures keep == Minus(a, b)
  {
    keep := [];
    var remove := {};
    for i := 0 to |b|
      invariant forall t :: t in remove <==> t in b[..i]
    {
      remove := remove + {b[i]};
    }
    assert b[..|b|] == b;
    for i := 0 to |a|
      invariant keep == Minus(a[..i], b)
    {
      assert a[..i + 1][..i] == a[..i];
      if a[i] !in remove { keep := keep + [a[i]]; }
    }
    assert a[..|a|] == a;
  }

  // --- the chain ---

  ghost predicate Held(db: map<(Digest, int), Block>, blocks: Blocks) {
    && (forall k :: k in db <==> k.0 in blocks && k.1 == blocks[k.0].header.number)
    && forall k :: k in db ==> db[k] == blocks[k.0]
  }

  ghost predicate NoRepeats(blocks: Blocks, genesis: Digest)
    requires Rooted(Tree(blocks), genesis)
  {
    forall d :: d in blocks ==> NoRepeat(blocks, genesis, d)
  }

  /** Every parent of a block in `all` is in the database. */
  ghost predicate ParentsHeld(db: map<(Digest, int), Block>, all: Blocks, genesis: Digest) {
    forall d :: d in all && d != genesis ==>
      && all[d].header.parent in all && (all[d].header.parent, all[d].header.number - 1) in db
      && db[(all[d].header.parent, all[d].header.number - 1)] == all[all[d].header.parent]
  }

  class BlockChain {
    const hash: Block -> Digest
    const genesis: Digest
    var db: map<(Digest, int), Block>
    var tds: map<(Digest, int), int>
    var canon: map<int, Digest>
    var lookup: Lookup
    var currentBlock: Block
    var currentFastBlock: Block
    var currentHeader: Header
    ghost const u: iset<Block>
    ghost var blocks: Blocks

    ghost predicate Stored()
      reads this
    {
      && Distinct(hash, u) && Rooted(Tree(blocks), genesis) && Sealed(blocks, hash, u)
      && Held(db, blocks) && HC.HeldTds(tds, Tree(blocks), genesis) && NoRepeats(blocks, genesis)
    }

    ghost function Head(): Digest
      reads this
    {
      hash(currentBlock)
    }

    ghost predicate Valid()
      reads this
    {
      && Stored() && Head() in blocks && blocks[Head()] == currentBlock
      && IndexUpTo(canon, blocks, genesis, Head()) && Exact(lookup, blocks, genesis, Head())
      && HC.Heaviest(Tree(blocks), genesis, Head()) && Lowest(Tree(blocks), genesis, Head())
      && KnownIndex(canon, blocks) && currentHeader == currentBlock.header && currentFastBlock == currentBlock
    }

    /** Starts from the genesis block. */
    constructor (hash: Block -> Digest, first: Block, ghost u: iset<Block>)
      requires Distinct(hash, u) && first in u && first.header.number == 0 && first.txs == []
      ensures Valid() && blocks == map[hash(first) := first] && genesis == hash(first) && this.hash == hash
      ensures this.u == u
    {
      var d := hash(first);
      this.hash, genesis, this.u := hash, d, u;
      db, tds, canon, lookup := map[(d, 0) := first], map[(d, 0) := first.header.difficulty], map[0 := d], map[];
      currentBlock, currentFastBlock, currentHeader := first, first, first.header;
      blocks := map[d := first];
      new;
      hide Distinct;
      assert Tree(blocks) == map[d := first.header];
    }

    function GetBlock(d: Digest, number: int): Option<Block>
      reads this
    {
      if (d, number) in db then Some(db[(d, number)]) else None
    }

    function GetTd(d: Digest, number: int): Option<int>
      reads this
    {
      if (d, number) in tds then Some(tds[(d, number)]) else None
    }

    /** Makes a block the head; the header and fast heads follow if the index changes. */
    method Insert(block: Block)
      modifies this`canon, this`currentBlock, this`currentFastBlock, this`currentHeader
      ensures canon == old(canon)[block.header.number := hash(block)] && currentBlock == block
      ensures var moved := EntryAt(old(canon), block.header.number) != hash(block);
        && currentFastBlock == (if moved then block else old(currentFastBlock))
        && currentHeader == (if moved then block.header else old(currentHeader))
    {
      var n := block.header.number;
      var updateHeads := EntryAt(canon, n) != hash(block);
      canon := canon[n := hash(block)];
      currentBlock := block;
      if updateHeads {
        currentHeader := block.header;
        currentFastBlock := block;
      }
    }

    /** Files the transactions of a block; a repeated one is filed where it is last. */
    method WriteLookups(block: Block)
      modifies this`lookup
      ensures Filed(old(lookup), lookup, hash(block), block)
    {
      hide FiledUpTo, LastPlace;
      FileNone(lookup, hash(block), block.header.number);
      var i := 0;
      while i < |block.txs|
        invariant 0 <= i <= |block.txs|
        invariant FiledUpTo(old(lookup), lookup, hash(block), block.header.number, block.txs[..i])
      {
        FileOne(old(lookup), lookup, hash(block), block.header.number, block.txs[..i], block.txs[i]);
        assert block.txs[..i + 1] == block.txs[..i] + [block.txs[i]];
        lookup := lookup[block.txs[i] := Entry(hash(block), block.header.number, i)];
        i := i + 1;
      }
      assert block.txs[..i] == block.txs;
      FiledAll(old(lookup), lookup, hash(block), block);
    }

    method DeleteLookups(txs: seq<Digest>)
      modifies this`lookup
      ensures lookup == old(lookup) - set t | t in txs
    {
      for i := 0 to |txs|
        invariant lookup == old(lookup) - set t | t in txs[..i]
      {
        lookup := lookup - {txs[i]};
      }
      assert txs[..|txs|] == txs;
    }

    /** Walks down from `d` to height `k`. */
    method Descend(b0: Block, k: nat, ghost all: Blocks, ghost d: Digest) returns (b: Block, chain: seq<Block>,
                   txs: seq<Digest>)
      requires Rooted(Tree(all), genesis) && d in all && all[d] == b0 && k <= b0.header.number
      requires ParentsHeld(db, all, genesis)
      ensures b == all[Ancestor(Tree(all), genesis, d, k)] && chain == Down(all, genesis, d, k) && txs == Txs(chain)
    {
      hide Rooted, ParentsHeld, Down, Txs;
      b, chain, txs := b0, [], [];
      DownStart(all, genesis, d);
      while b.header.number != k
        invariant k <= b.header.number <= b0.header.number && b == all[Ancestor(Tree(all), genesis, d, b.header.number)]
        invariant chain == Down(all, genesis, d, b.header.number) && txs == Txs(chain)
        decreases b.header.number
      {
        StepDown(db, all, genesis, d, b.header.number);
        TxsPush(chain, b);
        chain := chain + [b];
        txs := txs + b.txs;
        b := GetBlock(b.header.parent, b.header.number - 1).value;
      }
    }

    /** Walks both chains down, from the same height, to their last common block. */
    method Meet(old0: Block, new0: Block, oldChain0: seq<Block>, newChain0: seq<Block>, deleted0: seq<Digest>,
                ghost all: Blocks, ghost o: Digest, ghost n: Digest)
      returns (ghost m: nat, oldChain: seq<Block>, newChain: seq<Block>, deleted: seq<Digest>)
      requires Rooted(Tree(all), genesis) && o in all && n in all && ParentsHeld(db, all, genesis)
      requires Sealed(all, hash, u)
      requires var k := old0.header.number;
        && new0.header.number == k <= Tree(all)[o].number && k <= Tree(all)[n].number
        && old0 == all[Ancestor(Tree(all), genesis, o, k)] && new0 == all[Ancestor(Tree(all), genesis, n, k)]
        && oldChain0 == Down(all, genesis, o, k) && newChain0 == Down(all, genesis, n, k) && deleted0 == Txs(oldChain0)
      ensures m <= Tree(all)[o].number && m <= Tree(all)[n].number
      ensures Ancestor(Tree(all), genesis, o, m) == Ancestor(Tree(all), genesis, n, m)
      ensures Apart(all, genesis, o, n, m, old0.header.number)
      ensures oldChain == Down(all, genesis, o, m) && newChain == Down(all, genesis, n, m) && deleted == Txs(oldChain)
    {
      hide Rooted, ParentsHeld, Down, Txs, Sealed;
      var b, c := old0, new0;
      oldChain, newChain, deleted, m := oldChain0, newChain0, deleted0, old0.header.number;
      HashAt(all, o, m);
      HashAt(all, n, m);
      while hash(b) != hash(c)
        invariant m == b.header.number == c.header.number <= Tree(all)[o].number && m <= Tree(all)[n].number
        invariant b == all[Ancestor(Tree(all), genesis, o, m)] && c == all[Ancestor(Tree(all), genesis, n, m)]
        invariant hash(b) == Ancestor(Tree(all), genesis, o, m) && hash(c) == Ancestor(Tree(all), genesis, n, m)
        invariant oldChain == Down(all, genesis, o, m) && newChain == Down(all, genesis, n, m)
        invariant deleted == Txs(oldChain) && Apart(all, genesis, o, n, m, old0.header.number)
        decreases m
      {
        AncestorZero(Tree(all), genesis, o);
        AncestorZero(Tree(all), genesis, n);
        StepDown(db, all, genesis, o, m);
        StepDown(db, all, genesis, n, m);
        TxsPush(oldChain, b);
        oldChain, newChain, deleted := oldChain + [b], newChain + [c], deleted + b.txs;
        m := m - 1;
        b := GetBlock(b.header.parent, b.header.number - 1).value;
        c := GetBlock(c.header.parent, c.header.number - 1).value;
        HashAt(all, o, m);
        HashAt(all, n, m);
      }
    }

    lemma HashAt(all: Blocks, d: Digest, k: nat)
      requires Rooted(Tree(all), genesis) && d in all && k <= Tree(all)[d].number && Sealed(all, hash, u)
      ensures var a := Ancestor(Tree(all), genesis, d, k); a in all && hash(all[a]) == a && all[a].header.number == k
    {
      hide Rooted;
      var a := Ancestor(Tree(all), genesis, d, k);
      assert all[a].header == Tree(all)[a];
    }

    /** Puts the new chain in place of the old one, oldest block first. */
    method InsertAll(newChain: seq<Block>, ghost all: Blocks, ghost n: Digest,
                     ghost m: nat) returns (added: seq<Digest>)
      requires Rooted(Tree(all), genesis) && n in all && Sealed(all, hash, u) && NoRepeat(all, genesis, n)
      requires m <= Tree(all)[n].number && newChain == Down(all, genesis, n, m)
      requires IndexUpTo(canon, all, genesis, Ancestor(Tree(all), genesis, n, m)) && KnownIndex(canon, all)
      modifies this`canon, this`currentBlock, this`currentFastBlock, this`currentHeader, this`lookup
      ensures IndexUpTo(canon, all, genesis, n) && Added(old(lookup), lookup, all, genesis, n, m, Tree(all)[n].number)
      ensures forall t :: t in added <==> t in Txs(newChain)
      ensures currentBlock == if m < Tree(all)[n].number then all[n] else old(currentBlock)
      ensures SameAbove(old(canon), canon, Tree(all)[n].number) && KnownIndex(canon, all)
      ensures m == Tree(all)[n].number ==>
        canon == old(canon) && currentHeader == old(currentHeader) && currentFastBlock == old(currentFastBlock)
      ensures m < Tree(all)[n].number && EntryAt(old(canon), Tree(all)[n].number) != n ==>
        currentHeader == all[n].header && currentFastBlock == all[n]
    {
      hide Rooted, Down, Txs, Sealed, NoRepeat, IndexUpTo, Added, Filed, SameAbove, KnownIndex, EntryAt;
      SameAboveSelf(canon, m);
      DownLength(all, genesis, n, m);
      AddedNone(lookup, all, genesis, n, m);
      DownStart(all, genesis, n);
      added := [];
      var i := |newChain|;
      assert newChain[i..] == [];
      while i > 0
        invariant 0 <= i <= |newChain|
        invariant IndexUpTo(canon, all, genesis, Ancestor(Tree(all), genesis, n, Tree(all)[n].number - i))
        invariant Added(old(lookup), lookup, all, genesis, n, m, Tree(all)[n].number - i)
        invariant forall t :: t in added <==> t in Txs(newChain[i..])
        invariant currentBlock == if i < |newChain| then newChain[i] else old(currentBlock)
        invariant SameAbove(old(canon), canon, Tree(all)[n].number - i) && KnownIndex(canon, all)
        invariant i == |newChain| ==>
          canon == old(canon) && currentHeader == old(currentHeader) && currentFastBlock == old(currentFastBlock)
        invariant i == 0 < |newChain| && EntryAt(old(canon), Tree(all)[n].number) != n ==>
          currentHeader == newChain[0].header && currentFastBlock == newChain[0]
        decreases i
      {
        i := i - 1;
        ghost var k := Tree(all)[n].number - i;
        DownAt(all, genesis, n, m, i);
        HashAt(all, n, k);
        IndexNext(canon, all, genesis, n, k);
        EntryAbove(old(canon), canon, k - 1, k);
        SameAboveLess(old(canon), canon, k - 1, k);
        SameAbovePut(old(canon), canon, k, k, hash(newChain[i]));
        KnownPut(canon, all, hash(newChain[i]));
        if i == 0 { DownStart(all, genesis, n); }
        TxsCons(newChain, i);
        ghost var l1 := lookup;
        Insert(newChain[i]);
        WriteLookups(newChain[i]);
        AddedStep(old(lookup), l1, lookup, all, genesis, n, m, k);
        added := added + newChain[i].txs;
      }
      assert newChain[0..] == newChain;
      if m < Tree(all)[n].number { DownAt(all, genesis, n, m, 0); }
    }

    /** Replaces the chain of the old head by that of the new one, down to where they meet. */
    method Reorg(oldBlock: Block, newBlock: Block, ghost all: Blocks, ghost o: Digest, ghost n: Digest)
      requires Rooted(Tree(all), genesis) && o in all && n in all && all[o] == oldBlock && all[n] == newBlock
      requires ParentsHeld(db, all, genesis) && Sealed(all, hash, u) && NoRepeat(all, genesis, o)
      requires NoRepeat(all, genesis, n)
      requires IndexUpTo(canon, all, genesis, o) && Exact(lookup, all, genesis, o) && KnownIndex(canon, all)
      modifies this`canon, this`currentBlock, this`currentFastBlock, this`currentHeader, this`lookup
      ensures IndexUpTo(canon, all, genesis, n) && Exact(lookup, all, genesis, n)
      ensures SameAbove(old(canon), canon, newBlock.header.number) && KnownIndex(canon, all)
      ensures o == n ==>
        canon == old(canon) && currentHeader == old(currentHeader) && currentFastBlock == old(currentFastBlock)
      ensures EntryAt(old(canon), newBlock.header.number) != n ==>
        currentHeader == newBlock.header && currentFastBlock == newBlock
    {
      hide Rooted, ParentsHeld, Down, Txs, Sealed, NoRepeat, IndexUpTo, Exact, Added, SameAbove, Minus, KnownIndex,
        EntryAt, Apart;
      DownStart(all, genesis, o);
      DownStart(all, genesis, n);
      var b, c, oldChain, newChain, deletedTxs := oldBlock, newBlock, [], [], [];
      if oldBlock.header.number > newBlock.header.number {
        b, oldChain, deletedTxs := Descend(oldBlock, newBlock.header.number, all, o);
        HashAt(all, o, newBlock.header.number);
      } else {
        var txs;
        c, newChain, txs := Descend(newBlock, oldBlock.header.number, all, n);
        HashAt(all, n, oldBlock.header.number);
      }
      ghost var m;
      m, oldChain, newChain, deletedTxs := Meet(b, c, oldChain, newChain, deletedTxs, all, o, n);
      IndexLess(canon, all, genesis, o, m);
      OwnEntry(canon, all, genesis, o, n, m);
      if o == n { NotApart(all, genesis, o, m, newBlock.header.number); }
      ghost var l0 := lookup;
      var addedTxs := InsertAll(newChain, all, n, m);
      ghost var l1 := lookup;
      var diff := TxDifference(deletedTxs, addedTxs);
      DeleteLookups(diff);
      ghost var gone := set t | t in diff;
      forall t ensures t in gone <==> Above(all, genesis, o, m, t) && !Above(all, genesis, n, m, t) {
        MinusIn(deletedTxs, addedTxs, t);
        TxsAbove(all, genesis, o, m, t);
        TxsAbove(all, genesis, n, m, t);
      }
      MoveLookup(l0, l1, lookup, gone, all, genesis, o, n, m);
    }

    /** Writes a block; it becomes the head if it is heavier, or as heavy and lower, or as heavy
        and as high and the coin says so. */
    method WriteBlockWithState(block: Block, coin: bool) returns (status: HC.Status, ok: bool)
      requires Valid() && block in u && Suits(blocks, genesis, hash(block), block)
      modifies this
      ensures Valid()
      ensures ok <==> block.header.parent in old(blocks)
      ensures !ok ==> status.NonStat? && blocks == old(blocks) && canon == old(canon)
      ensures !ok ==> lookup == old(lookup) && Head() == old(Head())
      ensures ok ==> blocks == old(blocks)[hash(block) := block] && old(Head()) in blocks
      ensures ok ==>
        var extern, local := Td(Tree(blocks), genesis, hash(block)), Td(Tree(blocks), genesis, old(Head()));
        var low, high := block.header.number, old(currentBlock).header.number;
        status.Canon? <==> extern > local || (extern == local && (low < high || (low == high && coin)))
      ensures status.Canon? ==> currentBlock == block && currentHeader == block.header && currentFastBlock == block
      ensures status.Canon? ==> SameAbove(old(canon), canon, block.header.number)
      ensures status.Canon? ==> (EndsAt(canon, block.header.number) <==> EndsAt(old(canon), block.header.number))
      ensures ok && !status.Canon? ==>
        status.Side? && canon == old(canon) && lookup == old(lookup) && Head() == old(Head())
      ensures ok ==> Td(Tree(blocks), genesis, Head()) >= Td(Tree(blocks), genesis, old(Head()))
    {
      hide Rooted, Sealed, Distinct, Held, HC.HeldTds, NoRepeats, NoRepeat, IndexUpTo, Exact, HC.Heaviest, Td, Suits,
        ParentsHeld, Tree, Larger, SameAbove, EndsAt, Lowest, KnownIndex, EntryAt;
      TreeKeys(blocks);
      TreeKeys(blocks[hash(block) := block]);
      var d, hd := hash(block), block.header;
      KnownTds(tds, blocks, genesis);
      SuitsIs(blocks, genesis, d, block);
      var ptd := GetTd(hd.parent, hd.number - 1);
      if ptd.None? { return HC.NonStat, false; }
      var localTd := GetTd(hash(currentBlock), currentBlock.header.number);
      var externTd := hd.difficulty + ptd.value;
      ghost var all := blocks[d := block];
      ghost var head := Head();
      SameBlock(block);
      assert d != Zero() by { HashNotZero(block); }
      Grow(db, blocks, genesis, d, block, head, canon, lookup);
      WriteTd(block, d, externTd);
      HC.HeaviestGrows(Tree(blocks), Tree(all), genesis, head, d);
      LowestGrows(Tree(blocks), Tree(all), genesis, head, d);
      TreeAt(all, d);
      TreeAt(all, head);
      KnownGrows(canon, blocks, d, block);
      var reorg := externTd > localTd.value;
      if !reorg && externTd == localTd.value {
        reorg := hd.number < currentBlock.header.number || (hd.number == currentBlock.header.number && coin);
      }
      if reorg {
        NoRepeatsIs(all, genesis, head);
        NoRepeatsIs(all, genesis, d);
        if EntryAt(canon, hd.number) == d { Known(canon, blocks, all, genesis, head, d, block); }
        Promote(block, d, head);
        SameEnd(old(canon), canon, hd.number);
        status := HC.Canon;
      } else {
        WriteBlock(block, d);
        status := HC.Side;
      }
      ok := true;
    }

    /** Writes a block and makes it the head. */
    method Promote(block: Block, d: Digest, ghost head: Digest)
      requires Held(db, blocks) && (d in blocks ==> blocks[d] == block)
      requires hash(currentBlock) == head && hash(block) == d
      requires currentHeader == currentBlock.header && currentFastBlock == currentBlock
      requires var all := blocks[d := block];
        && Rooted(Tree(all), genesis) && head in all && all[head] == currentBlock && d != genesis
        && ParentsHeld(db, all, genesis) && Sealed(all, hash, u) && NoRepeat(all, genesis, head)
        && NoRepeat(all, genesis, d) && IndexUpTo(canon, all, genesis, head) && Exact(lookup, all, genesis, head)
        && KnownIndex(canon, all) && (EntryAt(canon, block.header.number) == d ==> d == head)
      modifies this`canon, this`currentBlock, this`currentFastBlock, this`currentHeader, this`lookup
      modifies this`db, this`blocks
      ensures Held(db, blocks) && blocks == old(blocks)[d := block]
      ensures currentBlock == block && currentHeader == block.header && currentFastBlock == block
      ensures Rooted(Tree(blocks), genesis) && IndexUpTo(canon, blocks, genesis, d) && Exact(lookup, blocks, genesis, d)
      ensures KnownIndex(canon, blocks) && SameAbove(old(canon), canon, block.header.number)
    {
      hide Rooted, Sealed, Held, NoRepeat, IndexUpTo, Exact, ParentsHeld, SameAbove, KnownIndex, EntryAt;
      Adopt(block, d, blocks[d := block], head);
      WriteBlock(block, d);
      Insert(block);
    }

    method WriteBlock(block: Block, d: Digest)
      requires Held(db, blocks) && (d in blocks ==> blocks[d] == block)
      modifies this`db, this`blocks
      ensures Held(db, blocks) && blocks == old(blocks)[d := block]
    {
      hide Held;
      HeldAdd(db, blocks, d, block);
      db := db[(d, block.header.number) := block];
      blocks := blocks[d := block];
    }

    method WriteTd(block: Block, d: Digest, td: int)
      requires Rooted(Tree(blocks), genesis) && HC.HeldTds(tds, Tree(blocks), genesis)
      requires Rooted(Tree(blocks[d := block]), genesis) && d != genesis && block.header.parent in blocks
      requires td == block.header.difficulty + Td(Tree(blocks), genesis, block.header.parent)
      requires (d in blocks ==> blocks[d] == block)
      modifies this`tds
      ensures HC.HeldTds(tds, Tree(blocks[d := block]), genesis) && Td(Tree(blocks[d := block]), genesis, d) == td
    {
      hide Rooted, HC.HeldTds;
      assert Tree(blocks[d := block]) == Tree(blocks)[d := block.header];
      HC.TdsAdd(tds, map[], Tree(blocks), genesis, d, block.header);
      tds := tds[(d, block.header.number) := td];
    }

    /** Moves both indices to the new head. */
    method Adopt(block: Block, d: Digest, ghost all: Blocks, ghost head: Digest)
      requires Rooted(Tree(all), genesis) && head in all && d in all && all[head] == currentBlock && all[d] == block
      requires hash(block) == d
      requires hash(currentBlock) == head && d != genesis
      requires ParentsHeld(db, all, genesis) && Sealed(all, hash, u) && NoRepeat(all, genesis, head)
      requires NoRepeat(all, genesis, d)
      requires IndexUpTo(canon, all, genesis, head) && Exact(lookup, all, genesis, head) && KnownIndex(canon, all)
      modifies this`canon, this`currentBlock, this`currentFastBlock, this`currentHeader, this`lookup
      ensures KnownIndex(canon[block.header.number := d], all)
      ensures EntryAt(old(canon), block.header.number) != d && EntryAt(canon, block.header.number) == d ==>
        currentHeader == block.header && currentFastBlock == block
      ensures d == head ==>
        && EntryAt(canon, block.header.number) == d
        && currentHeader == old(currentHeader) && currentFastBlock == old(currentFastBlock)
      ensures IndexUpTo(canon[block.header.number := d], all, genesis, d) && Exact(lookup, all, genesis, d)
      ensures SameAbove(old(canon), canon[block.header.number := d], block.header.number)
    {
      hide Rooted, ParentsHeld, Sealed, NoRepeat, IndexUpTo, Exact, Filed, SameAbove, KnownIndex, EntryAt;
      SameAboveSelf(canon, block.header.number);
      DownStart(all, genesis, d);
      NotOwnParent(all, genesis, d);
      HeadEntry(canon, all, genesis, head);
      if block.header.parent != hash(currentBlock) {
        Reorg(currentBlock, block, all, head, d);
        ghost var l1 := lookup;
        WriteLookups(block);
        ExactAgain(l1, lookup, all, genesis, d);
        IndexAgain(canon, all, genesis, d);
      } else {
        ghost var l1 := lookup;
        WriteLookups(block);
        ExactNext(l1, lookup, all, genesis, head, d);
        IndexChild(canon, all, genesis, head, d);
      }
      SameAbovePut(old(canon), canon, block.header.number, block.header.number, d);
      KnownPut(canon, all, d);
    }

    lemma HashNotZero(block: Block)
      requires Distinct(hash, u) && block in u
      ensures hash(block) != Zero()
    {}

    lemma SameBlock(block: Block)
      requires Distinct(hash, u) && Sealed(blocks, hash, u) && block in u
      ensures hash(block) in blocks ==> blocks[hash(block)] == block
      ensures Sealed(blocks[hash(block) := block], hash, u)
    {
      if hash(block) in blocks { assert blocks[hash(block)] in u; }
    }
  }

  /** The entry of a block that both chains share is that block. */
  lemma OwnEntry(canon: map<int, Digest>, all: Blocks, genesis: Digest, o: Digest, n: Digest, m: nat)
    requires Rooted(Tree(all), genesis) && o in all && n in all && m <= Tree(all)[o].number && m <= Tree(all)[n].number
    requires Ancestor(Tree(all), genesis, o, m) == Ancestor(Tree(all), genesis, n, m)
    requires IndexUpTo(canon, all, genesis, o)
    ensures m == Tree(all)[n].number ==> EntryAt(canon, m) == n
  {
    hide Rooted;
    DownStart(all, genesis, n);
    assert Tree(all)[n] == all[n].header;
  }

  lemma NotApart(all: Blocks, genesis: Digest, o: Digest, m: int, k: nat)
    requires Rooted(Tree(all), genesis) && o in all && k <= Tree(all)[o].number && Apart(all, genesis, o, o, m, k)
    ensures k <= m
  {
    var shared := Ancestor(Tree(all), genesis, o, k);
  }

  lemma NotOwnParent(all: Blocks, genesis: Digest, d: Digest)
    requires Rooted(Tree(all), genesis) && d in all && d != genesis
    ensures all[d].header.parent != d
  {
    assert Tree(all)[d] == all[d].header;
    assert Child(Tree(all), Tree(all)[d]);
  }

  lemma HeadEntry(canon: map<int, Digest>, all: Blocks, genesis: Digest, head: Digest)
    requires Rooted(Tree(all), genesis) && head in all && IndexUpTo(canon, all, genesis, head)
    ensures EntryAt(canon, all[head].header.number) == head
  {
    hide Rooted;
    DownStart(all, genesis, head);
    assert Tree(all)[head] == all[head].header;
  }

  lemma Known(canon: map<int, Digest>, blocks: Blocks, all: Blocks, genesis: Digest, head: Digest, d: Digest,
              block: Block)
    requires Rooted(Tree(blocks), genesis) && Rooted(Tree(all), genesis) && Larger(Tree(blocks), Tree(all))
    requires all == blocks[d := block] && (d in blocks ==> blocks[d] == block) && head in blocks && d != Zero()
    requires KnownIndex(canon, blocks) && IndexUpTo(canon, blocks, genesis, head)
    requires HC.Heaviest(Tree(blocks), genesis, head) && Lowest(Tree(blocks), genesis, head)
    requires EntryAt(canon, block.header.number) == d
    requires var extern, local := Td(Tree(all), genesis, d), Td(Tree(all), genesis, head);
      extern > local || (extern == local && block.header.number <= blocks[head].header.number)
    ensures d == head
  {
    hide Td, Rooted, KnownIndex, IndexUpTo, HC.Heaviest, Lowest, EntryAt;
    TreeKeys(blocks);
    TdGrows(Tree(blocks), Tree(all), genesis, head);
    if d in blocks { TdGrows(Tree(blocks), Tree(all), genesis, d); }
    AlreadyHead(canon, blocks, genesis, head, d, block);
  }

  lemma DownStart(all: Blocks, genesis: Digest, d: Digest)
    requires Rooted(Tree(all), genesis) && d in all
    ensures Ancestor(Tree(all), genesis, d, all[d].header.number) == d
    ensures Down(all, genesis, d, all[d].header.number) == [] && Txs([]) == []
  {}

  /** One step down the chain of `d`, from height `k`. */
  lemma StepDown(db: map<(Digest, int), Block>, all: Blocks, genesis: Digest, d: Digest, k: nat)
    requires Rooted(Tree(all), genesis) && d in all && 0 < k <= Tree(all)[d].number && ParentsHeld(db, all, genesis)
    ensures var b := all[Ancestor(Tree(all), genesis, d, k)];
      && b.header.number == k && (b.header.parent, k - 1) in db
      && b.header.parent == Ancestor(Tree(all), genesis, d, k - 1)
      && db[(b.header.parent, k - 1)] == all[Ancestor(Tree(all), genesis, d, k - 1)]
      && Down(all, genesis, d, k - 1) == Down(all, genesis, d, k) + [b]
  {
    hide Down;
    AncestorLink(Tree(all), genesis, d, k);
    DownNext(all, genesis, d, k - 1);
    var a := Ancestor(Tree(all), genesis, d, k);
    assert all[a].header == Tree(all)[a];
    assert a != genesis;
  }

  /** The index reaches one block further. */
  lemma IndexNext(canon: map<int, Digest>, all: Blocks, genesis: Digest, n: Digest, k: nat)
    requires Rooted(Tree(all), genesis) && n in all && 0 < k <= Tree(all)[n].number
    requires IndexUpTo(canon, all, genesis, Ancestor(Tree(all), genesis, n, k - 1))
    ensures IndexUpTo(canon[k := Ancestor(Tree(all), genesis, n, k)], all, genesis, Ancestor(Tree(all), genesis, n, k))
  {
    hide Rooted;
    var a := Ancestor(Tree(all), genesis, n, k);
    forall j: nat | j <= Tree(all)[a].number
      ensures j in canon[k := a] && canon[k := a][j] == Ancestor(Tree(all), genesis, a, j)
    {
      AncestorTrans(Tree(all), genesis, n, k, j);
      if j < k { AncestorTrans(Tree(all), genesis, n, k - 1, j); }
    }
  }

  lemma TxsCons(chain: seq<Block>, i: nat)
    requires i < |chain|
    ensures forall t :: t in Txs(chain[i..]) <==> t in chain[i].txs || t in Txs(chain[i + 1..])
  {
    forall t ensures t in Txs(chain[i..]) <==> t in chain[i].txs || t in Txs(chain[i + 1..]) {
      TxsMember(chain[i..], t);
      TxsMember(chain[i + 1..], t);
      assert chain[i..] == [chain[i]] + chain[i + 1..];
      assert forall b :: b in chain[i..] <==> b == chain[i] || b in chain[i + 1..];
    }
  }

  lemma IndexLess(canon: map<int, Digest>, all: Blocks, genesis: Digest, o: Digest, m: nat)
    requires Rooted(Tree(all), genesis) && o in all && m <= Tree(all)[o].number && IndexUpTo(canon, all, genesis, o)
    ensures IndexUpTo(canon, all, genesis, Ancestor(Tree(all), genesis, o, m))
  {
    hide Rooted;
    var a := Ancestor(Tree(all), genesis, o, m);
    forall k: nat | k <= Tree(all)[a].number ensures k in canon && canon[k] == Ancestor(Tree(all), genesis, a, k) {
      AncestorTrans(Tree(all), genesis, o, m, k);
    }
  }

  /** The caller's part: a block numbered after its parent, with transactions that its chain
      does not have yet. */
  ghost predicate Suits(blocks: Blocks, genesis: Digest, d: Digest, block: Block) {
    && (block.header.parent in blocks ==> block.header.number == blocks[block.header.parent].header.number + 1)
    && (Rooted(Tree(blocks[d := block]), genesis) ==> NoRepeat(blocks[d := block], genesis, d))
  }

  lemma KnownTds(tds: map<(Digest, int), int>, blocks: Blocks, genesis: Digest)
    requires Rooted(Tree(blocks), genesis) && HC.HeldTds(tds, Tree(blocks), genesis)
    ensures forall k :: k in tds <==> k.0 in blocks && k.1 == blocks[k.0].header.number
    ensures forall k :: k in tds ==> tds[k] == Td(Tree(blocks), genesis, k.0)
  {
    hide Rooted, Td;
    forall k ensures k in tds <==> k.0 in blocks && k.1 == blocks[k.0].header.number {
      if k.0 in blocks { assert Tree(blocks)[k.0] == blocks[k.0].header; }
    }
  }

  lemma TreeKeys(all: Blocks)
    ensures Tree(all).Keys == all.Keys
  {}

  lemma TreeAt(all: Blocks, d: Digest)
    requires d in all
    ensures d in Tree(all) && Tree(all)[d] == all[d].header
  {}

  lemma SuitsIs(blocks: Blocks, genesis: Digest, d: Digest, block: Block)
    requires Suits(blocks, genesis, d, block)
    ensures block.header.parent in blocks ==> block.header.number == blocks[block.header.parent].header.number + 1
  {}

  lemma NoRepeatsIs(all: Blocks, genesis: Digest, d: Digest)
    requires Rooted(Tree(all), genesis) && NoRepeats(all, genesis) && d in all
    ensures NoRepeat(all, genesis, d)
  {}

  lemma HeldAdd(db: map<(Digest, int), Block>, blocks: Blocks, d: Digest, block: Block)
    requires Held(db, blocks) && (d in blocks ==> blocks[d] == block)
    ensures Held(db[(d, block.header.number) := block], blocks[d := block])
  {}

  /** Knowing one more block changes nothing for the others. */
  lemma Grow(db: map<(Digest, int), Block>, blocks: Blocks, genesis: Digest, d: Digest, block: Block, head: Digest,
             canon: map<int, Digest>, lookup: Lookup)
    requires Rooted(Tree(blocks), genesis) && Held(db, blocks) && NoRepeats(blocks, genesis) && head in blocks
    requires block.header.parent in blocks && Suits(blocks, genesis, d, block) && (d in blocks ==> blocks[d] == block)
    requires IndexUpTo(canon, blocks, genesis, head) && Exact(lookup, blocks, genesis, head)
    ensures var all := blocks[d := block];
      && Rooted(Tree(all), genesis) && Larger(Tree(blocks), Tree(all)) && d != genesis
      && NoRepeats(all, genesis) && ParentsHeld(db, all, genesis)
      && IndexUpTo(canon, all, genesis, head) && Exact(lookup, all, genesis, head)
  {
    hide NoRepeat, IndexUpTo, Exact, Held, ParentsHeld, NoRepeats;
    var all := blocks[d := block];
    assert Tree(all) == Tree(blocks)[d := block.header];
    assert Tree(blocks)[block.header.parent] == blocks[block.header.parent].header;
    assert d in blocks ==> Tree(blocks)[d] == block.header;
    RootedAdd(Tree(blocks), genesis, d, block.header);
    GrowRepeats(blocks, all, genesis, d);
    GrowParents(db, blocks, genesis, d, block);
    GrowIndex(canon, lookup, blocks, all, genesis, head);
  }

  lemma GrowAt(blocks: Blocks, all: Blocks, genesis: Digest, head: Digest, t: Digest, e: Entry)
    requires Rooted(Tree(blocks), genesis) && Rooted(Tree(all), genesis) && Larger(Tree(blocks), Tree(all))
    requires head in blocks
    requires forall d :: d in blocks ==> d in all && all[d] == blocks[d]
    ensures At(blocks, genesis, head, t, e) <==> At(all, genesis, head, t, e)
  {
    hide Rooted;
    assert Tree(blocks)[head] == Tree(all)[head];
    if 0 <= e.number <= Tree(blocks)[head].number { AncestorGrows(Tree(blocks), Tree(all), genesis, head, e.number); }
  }

  lemma GrowRepeats(blocks: Blocks, all: Blocks, genesis: Digest, d: Digest)
    requires Rooted(Tree(blocks), genesis) && Rooted(Tree(all), genesis) && Larger(Tree(blocks), Tree(all))
    requires (forall e :: e in blocks ==> e in all && all[e] == blocks[e]) && all.Keys == blocks.Keys + {d}
    requires NoRepeats(blocks, genesis) && NoRepeat(all, genesis, d)
    ensures NoRepeats(all, genesis)
  {
    hide Rooted, At, Larger;
    forall x | x in all && x != d ensures NoRepeat(all, genesis, x) {
      assert NoRepeat(blocks, genesis, x);
      forall t, e, e' | At(all, genesis, x, t, e) && At(all, genesis, x, t, e') ensures e == e' {
        GrowAt(blocks, all, genesis, x, t, e);
        GrowAt(blocks, all, genesis, x, t, e');
      }
    }
  }

  lemma GrowParents(db: map<(Digest, int), Block>, blocks: Blocks, genesis: Digest, d: Digest, block: Block)
    requires Rooted(Tree(blocks), genesis) && Held(db, blocks) && Child(Tree(blocks), block.header)
    requires (d in blocks ==> blocks[d] == block)
    ensures ParentsHeld(db, blocks[d := block], genesis)
  {
    var all := blocks[d := block];
    forall x | x in all && x != genesis
      ensures all[x].header.parent in blocks && all[x].header.number == blocks[all[x].header.parent].header.number + 1
    {
      if x != d { assert Child(Tree(blocks), Tree(blocks)[x]); }
    }
  }

  lemma GrowIndex(canon: map<int, Digest>, lookup: Lookup, blocks: Blocks, all: Blocks, genesis: Digest, head: Digest)
    requires Rooted(Tree(blocks), genesis) && Rooted(Tree(all), genesis) && Larger(Tree(blocks), Tree(all))
    requires head in blocks
    requires forall e :: e in blocks ==> e in all && all[e] == blocks[e]
    requires IndexUpTo(canon, blocks, genesis, head) && Exact(lookup, blocks, genesis, head)
    ensures IndexUpTo(canon, all, genesis, head) && Exact(lookup, all, genesis, head)
  {
    hide Rooted, At;
    assert Tree(blocks)[head] == Tree(all)[head];
    forall k: nat | k <= Tree(all)[head].number
      ensures k in canon && canon[k] == Ancestor(Tree(all), genesis, head, k)
    {
      AncestorGrows(Tree(blocks), Tree(all), genesis, head, k);
    }
    forall t | t in lookup
      ensures At(all, genesis, head, t, lookup[t])
    {
      GrowAt(blocks, all, genesis, head, t, lookup[t]);
    }
    forall t, e | At(all, genesis, head, t, e) ensures t in lookup { GrowAt(blocks, all, genesis, head, t, e); }
  }

  lemma ExactAgain(l1: Lookup, l2: Lookup, all: Blocks, genesis: Digest, d: Digest)
    requires Rooted(Tree(all), genesis) && d in all && Exact(l1, all, genesis, d) && Filed(l1, l2, d, all[d])
    ensures Exact(l2, all, genesis, d)
  {
    hide Rooted, Ancestor, At;
    DownStart(all, genesis, d);
    assert Tree(all)[d] == all[d].header;
    AtIndex(all, genesis, d, all[d].header.number, d);
    forall t | t in l2 ensures At(all, genesis, d, t, l2[t]) {
      if t in all[d].txs {
        var k := LastPlace(all[d].txs, t);
        assert At(all, genesis, d, all[d].txs[k], Entry(d, all[d].header.number, k));
      }
    }
  }

  lemma ExactNext(l1: Lookup, l2: Lookup, all: Blocks, genesis: Digest, head: Digest, d: Digest)
    requires Rooted(Tree(all), genesis) && head in all && d in all && d != genesis && all[d].header.parent == head
    requires NoRepeat(all, genesis, head) && NoRepeat(all, genesis, d)
    requires Exact(l1, all, genesis, head) && Filed(l1, l2, d, all[d])
    ensures Exact(l2, all, genesis, d)
  {
    hide NoRepeat, Exact, Filed, At, Added;
    assert Tree(all)[d] == all[d].header && Child(Tree(all), Tree(all)[d]);
    assert Tree(all)[head] == all[head].header;
    var m := all[head].header.number;
    DownStart(all, genesis, d);
    DownStart(all, genesis, head);
    AncestorParent(Tree(all), genesis, d, m);
    AddedNone(l1, all, genesis, d, m);
    AddedStep(l1, l1, l2, all, genesis, d, m, m + 1);
    NothingAbove(all, genesis, head);
    MoveLookup(l1, l2, l2, {}, all, genesis, head, d, m);
  }

  lemma NothingAbove(all: Blocks, genesis: Digest, head: Digest)
    requires Rooted(Tree(all), genesis) && head in all
    ensures forall t :: !Above(all, genesis, head, Tree(all)[head].number, t)
  {}

  lemma IndexAgain(canon: map<int, Digest>, all: Blocks, genesis: Digest, d: Digest)
    requires Rooted(Tree(all), genesis) && d in all && IndexUpTo(canon, all, genesis, d)
    ensures IndexUpTo(canon[all[d].header.number := d], all, genesis, d)
  {
    DownStart(all, genesis, d);
    assert Tree(all)[d] == all[d].header;
  }

  lemma IndexChild(canon: map<int, Digest>, all: Blocks, genesis: Digest, head: Digest, d: Digest)
    requires Rooted(Tree(all), genesis) && head in all && d in all && d != genesis && all[d].header.parent == head
    requires IndexUpTo(canon, all, genesis, head)
    ensures IndexUpTo(canon[all[d].header.number := d], all, genesis, d)
  {
    hide IndexUpTo;
    assert Tree(all)[d] == all[d].header && Child(Tree(all), Tree(all)[d]);
    assert Tree(all)[head] == all[head].header;
    DownStart(all, genesis, d);
    DownStart(all, genesis, head);
    AncestorParent(Tree(all), genesis, d, all[head].header.number);
    IndexNext(canon, all, genesis, d, all[d].header.number);
  }

  // --- a heavier but shorter chain ---

  lemma TdOf(all: Blocks, genesis: Digest, d: Digest)
    requires Rooted(Tree(all), genesis) && d in all
    ensures d == genesis ==> Td(Tree(all), genesis, d) == all[d].header.difficulty
    ensures d != genesis ==>
      && all[d].header.parent in all
      && Td(Tree(all), genesis, d) == all[d].header.difficulty + Td(Tree(all), genesis, all[d].header.parent)
  {
    assert Tree(all)[d] == all[d].header;
  }

  /** Empty blocks repeat nothing. */
  lemma EmptySuits(blocks: Blocks, genesis: Digest, d: Digest, block: Block)
    requires (forall e :: e in blocks ==> blocks[e].txs == []) && block.txs == []
    requires block.header.parent in blocks ==> block.header.number == blocks[block.header.parent].header.number + 1
    ensures Suits(blocks, genesis, d, block)
  {
    hide Ancestor, Rooted;
  }

  ghost predicate Follows(hash: Block -> Digest, b: Block, parent: Block) {
    b.header.parent == hash(parent) && b.header.number == parent.header.number + 1 && b.txs == []
  }

  /** After `g`, `a1` and `a2`, a block `b1` beside `a1` that is heavier than both together becomes
      the head; the index keeps its entry for `a2`, above the head. */
  method ShorterHead(hash: Block -> Digest, g: Block, a1: Block, a2: Block, b1: Block, ghost u: iset<Block>)
    returns (bc: BlockChain)
    requires Distinct(hash, u) && g in u && a1 in u && a2 in u && b1 in u && g.header.number == 0 && g.txs == []
    requires Follows(hash, a1, g) && Follows(hash, a2, a1) && Follows(hash, b1, g)
    requires |{hash(g), hash(a1), hash(a2), hash(b1)}| == 4
    requires a1.header.difficulty > 0 && a2.header.difficulty > 0
    requires b1.header.difficulty > a1.header.difficulty + a2.header.difficulty
    ensures bc.Valid() && bc.currentBlock == b1
    ensures bc.currentBlock.header.number == 1 && 2 in bc.canon && bc.canon[2] == hash(a2)
  {
    hide Rooted, Sealed, Distinct, Held, HC.HeldTds, NoRepeats, IndexUpTo, Exact, HC.Heaviest, Td, Suits, Tree;
    bc := new BlockChain(hash, g, u);
    Extend(bc, a1, g);
    Extend(bc, a2, a1);
    HeadIndexed(bc.canon, bc.blocks, bc.genesis, bc.Head());
    ghost var all := bc.blocks[hash(b1) := b1];
    EmptySuits(bc.blocks, bc.genesis, hash(b1), b1);
    var status, ok := bc.WriteBlockWithState(b1, false);
    TdOf(all, bc.genesis, hash(g));
    TdOf(all, bc.genesis, hash(a1));
    TdOf(all, bc.genesis, hash(a2));
    TdOf(all, bc.genesis, hash(b1));
  }

  /** A block of positive difficulty on top of the head becomes the head. */
  method Extend(bc: BlockChain, b: Block, head: Block)
    requires bc.Valid() && b in bc.u && bc.currentBlock == head && Follows(bc.hash, b, head)
    requires b.header.difficulty > 0 && bc.hash(b) !in bc.blocks
    requires forall e :: e in bc.blocks ==> bc.blocks[e].txs == []
    modifies bc
    ensures bc.Valid() && bc.currentBlock == b && bc.blocks == old(bc.blocks)[bc.hash(b) := b]
  {
    hide Rooted, Sealed, Distinct, Held, HC.HeldTds, NoRepeats, IndexUpTo, Exact, HC.Heaviest, Td, Suits, Tree;
    ghost var all := bc.blocks[bc.hash(b) := b];
    EmptySuits(bc.blocks, bc.genesis, bc.hash(b), b);
    assert bc.hash(b) != bc.genesis by { GenesisKnown(bc.blocks, bc.genesis); }
    var status, ok := bc.WriteBlockWithState(b, false);
    TdOf(all, bc.genesis, bc.hash(b));
  }

  lemma GenesisKnown(blocks: Blocks, genesis: Digest)
    requires Rooted(Tree(blocks), genesis)
    ensures genesis in blocks
  {}

  lemma HeadIndexed(canon: map<int, Digest>, blocks: Blocks, genesis: Digest, head: Digest)
    requires Rooted(Tree(blocks), genesis) && head in blocks && IndexUpTo(canon, blocks, genesis, head)
    ensures blocks[head].header.number in canon && canon[blocks[head].header.number] == head
  {
    assert Tree(blocks)[head] == blocks[head].header;
  }

  /** Such blocks exist: numbered tags serve as hashes. */
  method ShorterHeadExample() returns (bc: BlockChain)
    ensures bc.Valid() && !EndsAt(bc.canon, bc.currentBlock.header.number)
  {
    hide Rooted, Sealed, Held, HC.HeldTds, NoRepeats, IndexUpTo, Exact, HC.Heaviest, Suits;
    var hash := (b: Block) => if |b.header.rest| == 32 then b.header.rest else Zero();
    var g := Block(Header(Zero(), 0, 1, Tag(1)), []);
    var a1 := Block(Header(Tag(1), 1, 1, Tag(2)), []);
    var a2 := Block(Header(Tag(2), 2, 1, Tag(3)), []);
    var b1 := Block(Header(Tag(1), 1, 3, Tag(4)), []);
    assert Tag(1)[0] == 1 && Tag(2)[0] == 2 && Tag(3)[0] == 3 && Tag(4)[0] == 4 && Zero()[0] == 0;
    assert hash(g) == Tag(1) && hash(a1) == Tag(2) && hash(a2) == Tag(3) && hash(b1) == Tag(4);
    bc := ShorterHead(hash, g, a1, a2, b1, iset{g, a1, a2, b1});
    assert 2 in bc.canon;
  }

  function Tag(i: Byte): Digest { seq(32, _ => i) }
}
