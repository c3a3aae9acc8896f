/** The trie downloader (fast/sync.go): it asks for nodes by hash, takes the answers apart, and
    flushes finished nodes to the store. SyncState holds the invariant that every step keeps. */
module Sync {
  import opened Bytes
  import opened Node
  import opened Memory
  import opened Tree
  import opened Closure
  import opened SyncState
  import opened Decoding

  /** A leaf callback refuses the leaf, or asks for more under the node it belongs to. */
  datatype Reaction = Refuse | Adds(subs: seq<Sub>)
  datatype Sub = SubTrie(root: Digest, depth: int, callback: Option<nat>) | RawEntry(hash: Digest, depth: int)

  datatype Item = Item(hash: Digest, data: Blob)
  datatype Outcome = Done | NotRequested | AlreadyProcessed | Undecodable | Refused | Crash

  /** Requests only gain parents and answers awaited. */
  ghost predicate Grown(a: Requests, b: Requests) {
    forall d :: d in a ==>
      d in b && b[d].data == a[d].data && a[d].parents <= b[d].parents && a[d].deps <= b[d].deps && SameAim(a[d], b[d])
  }

  /** What is asked for, and how, is the same. */
  predicate SameAim(a: Request, b: Request) { a.raw == b.raw && a.depth == b.depth && a.callback == b.callback }

  ghost predicate Good(good: (Digest, Blob) -> bool, db: Store) { forall d :: d in db ==> good(d, db[d]) }

  ghost predicate GoodAnswers(good: (Digest, Blob) -> bool, m: Requests) {
    forall d :: Delivered(m, d) ==> good(d, m[d].data.value)
  }

  /** No answers but old ones. */
  lemma GoodKeeps(good: (Digest, Blob) -> bool, m: Requests, m': Requests)
    requires GoodAnswers(good, m)
    requires forall d :: Delivered(m', d) ==> Delivered(m, d) && m'[d].data == m[d].data
    ensures GoodAnswers(good, m')
  {}

  /** A change that keeps the answer keeps both. */
  lemma SameAnswer(good: (Digest, Blob) -> bool, m: Requests, queue: seq<(Digest, int)>, issued: set<Digest>,
                   p: Digest, r: Request)
    requires p in m && r.data == m[p].data && GoodAnswers(good, m) && Queued(m, queue, issued)
    ensures GoodAnswers(good, m[p := r]) && Queued(m[p := r], queue, issued) && m[p := r].Keys == m.Keys
  {
    GoodKeeps(good, m, m[p := r]);
    QueuedKeeps(m, queue, issued, m[p := r]);
  }

  ghost predicate InQueue(queue: seq<(Digest, int)>, d: Digest) { exists i :: 0 <= i < |queue| && queue[i].0 == d }

  /** Every unanswered request has been handed out or will be. */
  ghost predicate Queued(m: Requests, queue: seq<(Digest, int)>, issued: set<Digest>) {
    forall d :: d in m && m[d].data.None? ==> d in issued || InQueue(queue, d)
  }

  lemma QueuedKeeps(m: Requests, queue: seq<(Digest, int)>, issued: set<Digest>, m': Requests)
    requires Queued(m, queue, issued)
    requires forall d :: d in m' && m'[d].data.None? ==> d in m && m[d].data.None?
    ensures Queued(m', queue, issued)
  {}

  lemma QueuedPush(m: Requests, queue: seq<(Digest, int)>, issued: set<Digest>, c: Digest, r: Request)
    requires Queued(m, queue, issued)
    ensures Queued(m[c := r], queue + [(c, r.depth)], issued)
  {
    var q := queue + [(c, r.depth)];
    assert q[|queue|].0 == c;
    forall d | InQueue(queue, d) ensures InQueue(q, d) {
      var i :| 0 <= i < |queue| && queue[i].0 == d;
      assert q[i].0 == d;
    }
  }

  lemma QueuedPop(m: Requests, queue: seq<(Digest, int)>, issued: set<Digest>, k: nat)
    requires Queued(m, queue, issued) && k < |queue|
    ensures Queued(m, queue[..k] + queue[k + 1..], issued + {queue[k].0})
  {
    var q := queue[..k] + queue[k + 1..];
    forall d | InQueue(queue, d) ensures d == queue[k].0 || InQueue(q, d) {
      var i :| 0 <= i < |queue| && queue[i].0 == d;
      if i < k { assert q[i].0 == d; } else if i > k { assert q[i - 1].0 == d; }
    }
  }

  /** Taken in falling depth, none less deep than what is left. */
  ghost predicate Descending(taken: seq<(Digest, int)>, queue: seq<(Digest, int)>) {
    && (forall i, j :: 0 <= i < j < |taken| ==> taken[i].1 >= taken[j].1)
    && (forall i, j :: 0 <= i < |taken| && 0 <= j < |queue| ==> taken[i].1 >= queue[j].1)
  }

  /** The queue's next item: one of greatest depth. */
  method Deepest(queue: seq<(Digest, int)>) returns (k: nat)
    requires queue != []
    ensures k < |queue| && forall j :: 0 <= j < |queue| ==> queue[j].1 <= queue[k].1
  {
    k := 0;
    for i := 1 to |queue|
      invariant k < i && forall j :: 0 <= j < i ==> queue[j].1 <= queue[k].1
    {
      if queue[i].1 > queue[k].1 { k := i; }
    }
  }

  /** `taken` was handed out of `q0` as `out`, deepest first, and `queue` is left. */
  ghost predicate Handed(q0: seq<(Digest, int)>, queue: seq<(Digest, int)>, taken: seq<(Digest, int)>,
                         out: seq<Digest>) {
    && |taken| == |out| && (forall i :: 0 <= i < |out| ==> out[i] == taken[i].0)
    && multiset(q0) == multiset(taken) + multiset(queue) && Descending(taken, queue)
  }

  lemma HandNone(queue: seq<(Digest, int)>)
    ensures Handed(queue, queue, [], [])
  {}

  lemma HandNext(q0: seq<(Digest, int)>, queue: seq<(Digest, int)>, taken: seq<(Digest, int)>, out: seq<Digest>,
                 k: nat)
    requires Handed(q0, queue, taken, out) && k < |queue|
    requires forall j :: 0 <= j < |queue| ==> queue[j].1 <= queue[k].1
    ensures Handed(q0, queue[..k] + queue[k + 1..], taken + [queue[k]], out + [queue[k].0])
  {
    hide Descending;
    TakeNext(taken, queue, k);
  }

  lemma TakeNext(taken: seq<(Digest, int)>, queue: seq<(Digest, int)>, k: nat)
    requires Descending(taken, queue) && k < |queue| && forall j :: 0 <= j < |queue| ==> queue[j].1 <= queue[k].1
    ensures Descending(taken + [queue[k]], queue[..k] + queue[k + 1..])
    ensures multiset(taken + [queue[k]]) + multiset(queue[..k] + queue[k + 1..]) == multiset(taken) + multiset(queue)
  {
    assert queue == queue[..k] + [queue[k]] + queue[k + 1..];
  }

  lemma GoodAt(good: (Digest, Blob) -> bool, m: Requests, d: Digest)
    requires GoodAnswers(good, m)
    ensures Delivered(m, d) ==> good(d, m[d].data.value)
  {}

  // --- taking a node apart ---

  /** The children of a node that are there, with their depths. */
  function ChildList(n: Node, depth: int): seq<(Node, int)>
    requires OneLeaf(n)
  {
    match n
    case Short(k, c, _) => [(c, depth + |k|)]
    case Full(cs, _) => Present(cs, depth + 1)
  }

  function Present(cs: seq<Node>, depth: int): (r: seq<(Node, int)>)
    ensures forall i :: 0 <= i < |r| ==> r[i].0 in cs && r[i].1 == depth
    ensures forall c :: c in cs && c != Nil ==> (c, depth) in r
  {
    if cs == [] then []
    else Present(cs[..|cs| - 1], depth) + (if cs[|cs| - 1] == Nil then [] else [(cs[|cs| - 1], depth)])
  }

  method Gather(n: Node, depth: int) returns (children: seq<(Node, int)>)
    requires OneLeaf(n)
    ensures children == ChildList(n, depth)
  {
    hide Present;
    if n.Full? {
      children := GatherAll(n.children, depth + 1);
    } else {
      children := [(n.val, depth + |n.key|)];
    }
  }

  method GatherAll(cs: seq<Node>, depth: int) returns (children: seq<(Node, int)>)
    ensures children == Present(cs, depth)
  {
    children := [];
    for i := 0 to |cs|
      invariant children == Present(cs[..i], depth)
    {
      assert cs[..i + 1][..i] == cs[..i];
      if cs[i] != Nil { children := children + [(cs[i], depth)]; }
    }
    assert cs[..|cs|] == cs;
  }

  lemma ChildListRefs(n: Node, depth: int)
    requires OneLeaf(n)
    ensures var l := ChildList(n, depth);
      && (forall c :: c in DirectRefs(n) ==> exists i :: 0 <= i < |l| && l[i].0 == HashRef(c))
      && (forall i :: 0 <= i < |l| && l[i].0.HashRef? ==> l[i].0.digest in DirectRefs(n))
      && (forall i :: 0 <= i < |l| - 1 ==> !l[i].0.Value?)
      && (LeafOf(n).Some? ==> exists i :: 0 <= i < |l| && l[i].0 == Value(LeafOf(n).value))
      && (forall i :: 0 <= i < |l| && l[i].0.Value? ==> LeafOf(n) == Some(l[i].0.blob))
  {
    var l := ChildList(n, depth);
    forall c | c in DirectRefs(n) ensures exists i :: 0 <= i < |l| && l[i].0 == HashRef(c) {
      if n.Full? { assert (HashRef(c), depth + 1) in l; } else { assert l[0].0 == HashRef(c); }
    }
    if LeafOf(n).Some? {
      if n.Full? { assert (n.children[16], depth + 1) in l; } else { assert l[0].0 == n.val; }
    }
    if n.Full? {
      var init := Present(n.children[..16], depth + 1);
      forall i | 0 <= i < |l| - 1 ensures !l[i].0.Value? {
        assert l[i] == init[i];
        assert init[i].0 in n.children[..16];
      }
    }
  }

  /** The value a node holds. */
  function LeafOf(n: Node): Option<Blob>
    requires OneLeaf(n)
  {
    match n
    case Short(_, Value(v), _) => Some(v)
    case Full(cs, _) => if cs[16].Value? then Some(cs[16].blob) else None
    case _ => None
  }

  /** The references in a list of children that are not present. */
  function Absent(l: seq<(Node, int)>, db: Store, batch: Store): seq<(Digest, int)> {
    if l == [] then []
    else
      var (n, depth) := l[|l| - 1];
      Absent(l[..|l| - 1], db, batch)
      + (if n.HashRef? && n.digest !in batch && n.digest !in db then [(n.digest, depth)] else [])
  }

  lemma AbsentIn(l: seq<(Node, int)>, db: Store, batch: Store)
    ensures forall i :: 0 <= i < |l| && l[i].0.HashRef? ==>
      Here(db, batch, l[i].0.digest) || Asked(Absent(l, db, batch), l[i].0.digest)
    ensures forall c :: Asked(Absent(l, db, batch), c) ==>
      !Here(db, batch, c) && exists i :: 0 <= i < |l| && l[i].0 == HashRef(c)
  {
    if l != [] {
      var init, k := l[..|l| - 1], Absent(l, db, batch);
      AbsentIn(init, db, batch);
      var k0 := Absent(init, db, batch);
      assert forall i :: 0 <= i < |k0| ==> k[i] == k0[i];
      forall i | 0 <= i < |l| && l[i].0.HashRef? ensures Here(db, batch, l[i].0.digest) || Asked(k, l[i].0.digest) {
        if i == |l| - 1 {
          if !Here(db, batch, l[i].0.digest) { assert k[|k0|].0 == l[i].0.digest; }
        } else {
          assert init[i] == l[i];
          if !Here(db, batch, l[i].0.digest) {
            var j :| 0 <= j < |k0| && k0[j].0 == l[i].0.digest;
            assert k[j].0 == l[i].0.digest;
          }
        }
      }
      forall c | Asked(k, c) ensures !Here(db, batch, c) && exists i :: 0 <= i < |l| && l[i].0 == HashRef(c) {
        var j :| 0 <= j < |k| && k[j].0 == c;
        if j < |k0| {
          assert k0[j].0 == c;
          assert Asked(k0, c);
          var i :| 0 <= i < |init| && init[i].0 == HashRef(c);
          assert l[i].0 == HashRef(c);
        } else {
          assert l[|l| - 1].0 == HashRef(c);
        }
      }
    }
  }

  /** They are exactly the node's references that are not present. */
  lemma AbsentRefs(n: Node, depth: int, db: Store, batch: Store, c: Digest)
    requires OneLeaf(n)
    ensures Asked(Absent(ChildList(n, depth), db, batch), c) <==> c in DirectRefs(n) && !Here(db, batch, c)
  {
    hide Absent, Asked;
    var l := ChildList(n, depth);
    ChildListRefs(n, depth);
    AbsentIn(l, db, batch);
  }

  ghost predicate Asked(kids: seq<(Digest, int)>, c: Digest) { exists i :: 0 <= i < |kids| && kids[i].0 == c }

  /** A request that a leaf callback makes. */
  predicate FromSub(sub: Sub, c: Digest, r: Request) {
    match sub
    case SubTrie(root, depth, callback) => root == c && !r.raw && r.depth == depth && r.callback == callback
    case RawEntry(hash, depth) => hash == c && r.raw && r.depth == depth && r.callback == None
  }

  /** A request for one of `kids`, under the callback of the node that refers to it. */
  predicate FromRef(kids: seq<(Digest, int)>, callback: Option<nat>, c: Digest, r: Request) {
    (c, r.depth) in kids && !r.raw && r.callback == callback
  }

  /** Every request in `b` that is not in `a` is unanswered, and was made by a callback or for one
      of `kids`. */
  ghost predicate NewOnes(a: Requests, b: Requests, subs: seq<Sub>, kids: seq<(Digest, int)>, callback: Option<nat>) {
    forall c :: c in b && c !in a ==>
      && b[c].data.None?
      && ((exists i :: 0 <= i < |subs| && FromSub(subs[i], c, b[c])) || FromRef(kids, callback, c, b[c]))
  }

  lemma NewNone(a: Requests, subs: seq<Sub>, kids: seq<(Digest, int)>, callback: Option<nat>)
    ensures NewOnes(a, a, subs, kids, callback)
  {}

  lemma NewLess(a: Requests, b: Requests, c: Requests, subs: seq<Sub>, kids: seq<(Digest, int)>, callback: Option<nat>)
    requires NewOnes(a, b, subs, kids, callback) && forall d :: d in c && d !in a ==> d in b && SameAim(b[d], c[d])
    requires forall d :: d in c && d !in a ==> b[d].data == c[d].data
    ensures NewOnes(a, c, subs, kids, callback)
  {
    forall d | d in c && d !in a
      ensures (exists i :: 0 <= i < |subs| && FromSub(subs[i], d, c[d])) || FromRef(kids, callback, d, c[d])
    {
      if i :| 0 <= i < |subs| && FromSub(subs[i], d, b[d]) { assert FromSub(subs[i], d, c[d]); }
    }
  }

  /** First what the callback asks for, then the references. */
  lemma NewThen(a: Requests, b: Requests, c: Requests, subs: seq<Sub>, kids: seq<(Digest, int)>, callback: Option<nat>)
    requires NewOnes(a, b, subs, [], None) && NewOnes(b, c, [], kids, callback) && Grown(b, c)
    ensures NewOnes(a, c, subs, kids, callback)
  {
    forall d | d in c && d !in a
      ensures (exists i :: 0 <= i < |subs| && FromSub(subs[i], d, c[d])) || FromRef(kids, callback, d, c[d])
    {
      if d in b {
        var i :| 0 <= i < |subs| && FromSub(subs[i], d, b[d]);
        assert FromSub(subs[i], d, c[d]);
      }
    }
  }

  lemma NewSub(a: Requests, b: Requests, c: Requests, subs: seq<Sub>, i: nat)
    requires i < |subs| && NewOnes(a, b, subs[..i], [], None) && NewOnes(b, c, [subs[i]], [], None) && Grown(b, c)
    ensures NewOnes(a, c, subs[..i + 1], [], None)
  {
    var more := subs[..i + 1];
    forall d | d in c && d !in a ensures exists j :: 0 <= j < |more| && FromSub(more[j], d, c[d]) {
      if d in b {
        var j :| 0 <= j < i && FromSub(subs[..i][j], d, b[d]);
        assert FromSub(more[j], d, c[d]);
      } else {
        assert FromSub(more[i], d, c[d]);
      }
    }
  }

  lemma NewDelivered(a: Requests, b: Requests, d: Digest, data: Blob, subs: seq<Sub>, kids: seq<(Digest, int)>,
                     callback: Option<nat>)
    requires d in a && NewOnes(a[d := a[d].(data := Some(data))], b, subs, kids, callback)
    ensures NewOnes(a, b, subs, kids, callback)
  {}

  lemma NewSettled(a: Requests, b: Requests, c: Requests, subs: seq<Sub>, kids: seq<(Digest, int)>,
                   callback: Option<nat>)
    requires NewOnes(a, b, subs, [], None) && Trimmed(b, c) && kids == []
    ensures NewOnes(a, c, subs, kids, callback)
  {
    NewLess(a, b, c, subs, [], None);
  }

  lemma NewAwaited(a: Requests, b: Requests, d: Digest, n: nat, kids: seq<(Digest, int)>, callback: Option<nat>)
    requires d in a && NewOnes(a[d := a[d].(deps := a[d].deps + n)], b, [], kids, callback)
    ensures NewOnes(a, b, [], kids, callback)
  {}

  /** The requests after an answer is taken: old ones only, or `kids` are asked for. */
  ghost predicate AfterTaken(a: Requests, b: Requests, kids: seq<(Digest, int)>, callback: Option<nat>, done: bool) {
    if done then kids == [] && Trimmed(a, b) else Grown(a, b) && NewOnes(a, b, [], kids, callback)
  }

  lemma NewAfter(a: Requests, b: Requests, c: Requests, subs: seq<Sub>, kids: seq<(Digest, int)>, callback: Option<nat>,
                 done: bool)
    requires NewOnes(a, b, subs, [], None) && AfterTaken(b, c, kids, callback, done)
    ensures NewOnes(a, c, subs, kids, callback)
  {
    hide NewOnes, Grown, Trimmed;
    if done { NewSettled(a, b, c, subs, kids, callback); } else { NewThen(a, b, c, subs, kids, callback); }
  }

  lemma NewTrimmed(a: Requests, b: Requests)
    requires Trimmed(a, b)
    ensures NewOnes(a, b, [], [], None)
  {}

  lemma NewScheduled(m: Requests, k: (Digest, int), r: Request)
    requires r.data.None? && !r.raw && r.depth == k.1
    ensures NewOnes(m, Scheduled(m, k.0, r), [], [k], r.callback)
  {}

  lemma NewKid(a: Requests, b: Requests, c: Requests, kids: seq<(Digest, int)>, i: nat, callback: Option<nat>)
    requires i < |kids| && NewOnes(a, b, [], kids[..i], callback) && NewOnes(b, c, [], [kids[i]], callback)
    requires Grown(b, c)
    ensures NewOnes(a, c, [], kids[..i + 1], callback)
  {
    var more := kids[..i + 1];
    assert more[i] == kids[i];
    forall d | d in c && d !in a ensures FromRef(more, callback, d, c[d]) {
      if d in b { assert FromRef(kids[..i], callback, d, b[d]); }
      forall x | x in kids[..i] ensures x in more { var j :| 0 <= j < i && kids[j] == x; assert more[j] == x; }
    }
  }

  lemma GrownAwait(m: Requests, d: Digest, n: nat)
    requires d in m
    ensures Grown(m, m[d := m[d].(deps := m[d].deps + n)])
  {}

  lemma GrownSame(a: Requests)
    ensures Grown(a, a)
  {}

  lemma GrownScheduled(m: Requests, c: Digest, r: Request)
    ensures Grown(m, Scheduled(m, c, r)) && Scheduled(m, c, r).Keys == m.Keys + {c}
    ensures forall p :: p in r.parents ==> p in Scheduled(m, c, r)[c].parents
    ensures c !in m ==> Scheduled(m, c, r)[c] == r
  {}

  lemma GrownParents(a: Requests, b: Requests, kids: seq<(Digest, int)>, d: Digest)
    requires Grown(a, b) && AllUnder(a, kids, d)
    ensures AllUnder(b, kids, d)
  {}

  /** All of `kids` are requested for `d`. */
  ghost predicate AllUnder(m: Requests, kids: seq<(Digest, int)>, d: Digest) {
    forall i :: 0 <= i < |kids| ==> kids[i].0 in m && d in m[kids[i].0].parents
  }

  lemma GrownTrans(a: Requests, b: Requests, c: Requests)
    requires Grown(a, b) && Grown(b, c)
    ensures Grown(a, c)
  {}

  lemma GrownDelivered(a: Requests, b: Requests, d: Digest)
    requires Grown(a, b) && Delivered(a, d)
    ensures Delivered(b, d) && b[d].data == a[d].data && a[d].deps <= b[d].deps && SameAim(a[d], b[d])
  {}

  lemma NowLinked(db: Store, batch: Store, m: Requests, d: Digest, cs: set<Digest>, kids: seq<(Digest, int)>)
    requires forall c :: c in cs ==> Here(db, batch, c) || Asked(kids, c)
    requires AllUnder(m, kids, d)
    ensures Linked(db, batch, m, d, cs)
  {}

  lemma NoneAsked(kids: seq<(Digest, int)>, c: Digest)
    requires kids == []
    ensures !Asked(kids, c)
  {}

  lemma GoodDeliver(good: (Digest, Blob) -> bool, m: Requests, d: Digest, data: Blob)
    requires GoodAnswers(good, m) && d in m && good(d, data)
    ensures GoodAnswers(good, m[d := m[d].(data := Some(data))])
  {
    var m' := m[d := m[d].(data := Some(data))];
    forall e | Delivered(m', e) ensures good(e, m'[e].data.value) {
      if e != d { assert Delivered(m, e); }
    }
  }

  lemma FlushedGood(good: (Digest, Blob) -> bool, db: Store, batch: Store, keys: seq<Digest>)
    requires Good(good, db) && Good(good, batch) && forall k :: k in keys ==> k in batch
    ensures Good(good, Flushed(db, batch, keys))
  {}

  lemma EmptyGood(good: (Digest, Blob) -> bool, queue: seq<(Digest, int)>, issued: set<Digest>)
    ensures Good(good, map[]) && GoodAnswers(good, map[]) && Queued(map[], queue, issued)
  {}

  lemma TellNext(owed: multiset<Digest>, ps: seq<Digest>, k: nat)
    requires k < |ps|
    ensures owed + multiset(ps[k..]) == (owed + multiset(ps[k + 1..])) + multiset{ps[k]}
  {
    assert ps[k..] == [ps[k]] + ps[k + 1..];
  }

  /** Finishing nodes loses nothing that is kept track of or finished. */
  ghost predicate Moved(s: State, t: State) {
    && Keeps(s, t) && Retains(s, t) && Trimmed(s.requests, t.requests)
    && (forall d :: d in s.doneAsks ==> d in t.doneAsks && t.doneAsks[d] == s.doneAsks[d])
    && (forall d :: d in s.doneWays ==> d in t.doneWays && t.doneWays[d] == s.doneWays[d])
  }

  /** No request but old ones. */
  ghost predicate Trimmed(a: Requests, b: Requests) {
    forall d :: d in b ==> d in a && SameAim(a[d], b[d]) && b[d].data == a[d].data
  }

  lemma TrimmedTrans(a: Requests, b: Requests, c: Requests)
    requires Trimmed(a, b) && Trimmed(b, c)
    ensures Trimmed(a, c)
  {}

  /** Finished nodes and answers stay, with their content; an answer may become finished. */
  ghost predicate Retains(s: State, t: State) {
    && Extends(s.batch, t.batch)
    && forall d :: Delivered(s.requests, d) ==>
      || (d in t.batch && t.batch[d] == s.requests[d].data.value)
      || (Delivered(t.requests, d) && t.requests[d].data == s.requests[d].data)
  }

  lemma RetainsGrown(s: State, t: State)
    requires s.batch == t.batch && Grown(s.requests, t.requests)
    ensures Retains(s, t)
  {}

  lemma SameRetained(s: State, t: State, v: State)
    requires Retains(s, t) && v.batch == t.batch && v.requests == t.requests
    ensures Retains(s, v)
  {}

  lemma RetainsDelivered(s: State, t: State, d: Digest, data: Blob)
    requires s.batch == t.batch && d in s.requests && s.requests[d].data.None?
    requires t.requests == s.requests[d := s.requests[d].(data := Some(data))]
    ensures Retains(s, t)
  {}

  lemma RetainsTrans(s: State, t: State, v: State)
    requires Retains(s, t) && Retains(t, v)
    ensures Retains(s, v)
  {}

  lemma MovedRetains(s: State, t: State)
    requires Moved(s, t)
    ensures Retains(s, t) && Trimmed(s.requests, t.requests)
  {}

  lemma MovedSame(s: State)
    ensures Moved(s, s)
  {}

  lemma MovedStep(s: State, t: State)
    requires s.db == t.db && s.batch == t.batch && s.doneAsks == t.doneAsks && s.requests.Keys == t.requests.Keys
    requires s.doneWays == t.doneWays
    requires forall d :: d in s.requests ==>
      t.requests[d].data == s.requests[d].data && SameAim(s.requests[d], t.requests[d])
    ensures Moved(s, t)
  {}

  lemma MovedTrans(s: State, t: State, v: State)
    requires Moved(s, t) && Moved(t, v)
    ensures Moved(s, v)
  {
    hide Keeps, Retains, Trimmed;
    RetainsTrans(s, t, v);
    KeepsTrans(s, t, v);
    TrimmedTrans(s.requests, t.requests, v.requests);
  }

  lemma KeepsTrans(s: State, t: State, v: State)
    requires Keeps(s, t) && Keeps(t, v)
    ensures Keeps(s, v)
  {}

  lemma MovedAt(s: State, t: State, d: Digest)
    requires Moved(s, t) && d in s.batch && d in s.doneAsks && d in s.doneWays
    ensures d in t.batch && t.batch[d] == s.batch[d] && d in t.doneAsks && t.doneAsks[d] == s.doneAsks[d]
    ensures d in t.doneWays && t.doneWays[d] == s.doneWays[d]
  {}

  lemma CoveredNone(s: State)
    ensures Covered({}, s)
  {}

  lemma MovedPut(s: State, t: State, d: Digest)
    requires Keeps(s, t) && d !in s.batch && d !in s.doneAsks && d in t.batch && d in t.doneAsks
    requires t.batch == s.batch[d := t.batch[d]] && t.doneAsks == s.doneAsks[d := t.doneAsks[d]]
    requires d !in s.doneWays && d in t.doneWays && t.doneWays == s.doneWays[d := t.doneWays[d]]
    requires t.requests == s.requests - {d} && (Delivered(s.requests, d) ==> s.requests[d].data == Some(t.batch[d]))
    ensures Moved(s, t)
  {
    forall e | Delivered(s.requests, e) && e != d ensures Delivered(t.requests, e) {}
  }

  lemma Fewer(m: Requests, d: Digest)
    requires d in m
    ensures |m - {d}| < |m|
  {
    assert (m - {d}).Keys == m.Keys - {d};
  }

  lemma FinishRest(s: State, owed: multiset<Digest>, d: Digest, data: Blob, raws: set<Digest>)
    requires Consistent(s, owed, {d}) && d in s.requests
    requires (Delivered(s.requests, d) ==> s.requests[d].data == Some(data)) && s.doneWays.Keys == s.batch.Keys
    ensures var t := Finished(s, d, data, raws);
      && Moved(s, t) && Keeps(s, t) && |t.requests| < |s.requests|
      && t.db == s.db && t.requests == s.requests - {d} && t.raws == raws && d in t.doneAsks
      && t.order == s.order + [d] && t.batch == s.batch[d := data] && t.doneAsks[d] == AskedBy(s.asks, d)
      && d in t.doneWays && t.doneWays[d] == WayOf(s.requests[d])
  {
    hide Consistent, Moved, Keeps;
    FreshKey(s, owed, d);
    KeepsGrown(s, Finished(s, d, data, raws));
    MovedPut(s, Finished(s, d, data, raws), d);
    Fewer(s.requests, d);
  }

  lemma FinishGood(good: (Digest, Blob) -> bool, batch: Store, m: Requests, queue: seq<(Digest, int)>,
                   issued: set<Digest>, d: Digest, data: Blob)
    requires Good(good, batch) && GoodAnswers(good, m) && Queued(m, queue, issued) && good(d, data)
    ensures Good(good, batch[d := data]) && GoodAnswers(good, m - {d}) && Queued(m - {d}, queue, issued)
  {
    GoodKeeps(good, m, m - {d});
    QueuedKeeps(m, queue, issued, m - {d});
  }

  lemma KeepsWritten(s: State, t: State, n: nat)
    requires n <= |s.order| && t.db == Flushed(s.db, s.batch, s.order[..n]) && s.requests == t.requests
    requires t.batch == s.batch || n == |s.order|
    requires forall d :: d in s.batch <==> d in s.order
    ensures Keeps(s, t)
  {
    hide Flushed;
    FlushedIs(s.db, s.batch, s.order[..n]);
    assert n == |s.order| ==> s.order[..n] == s.order;
  }

  /** `t` is `db` with the batch entries of `keys` written over it. */
  ghost predicate Overlaid(db: Store, batch: Store, keys: seq<Digest>, t: Store) {
    && (forall d :: d in t <==> d in db || d in keys)
    && (forall d :: d in t && d in keys ==> d in batch && t[d] == batch[d])
    && (forall d :: d in t && d !in keys ==> t[d] == db[d])
  }

  lemma IsOverlaid(db: Store, batch: Store, keys: seq<Digest>)
    requires forall k :: k in keys ==> k in batch
    ensures Overlaid(db, batch, keys, Flushed(db, batch, keys))
  {
    hide Flushed;
    FlushedIs(db, batch, keys);
  }

  // --- the downloader ---

  class TrieSync {
    const emptyRoot: Digest
    const emptyState: Digest
    const react: (nat, Blob) -> Reaction
    var database: Store
    var batch: Store
    var order: seq<Digest>
    var requests: Requests
    var queue: seq<(Digest, int)>
    ghost const good: (Digest, Blob) -> bool      // any property that every answer has
    ghost var raws: set<Digest>
    ghost var wanted: set<Digest>                 // every hash asked for
    ghost var issued: set<Digest>                 // every hash handed out for retrieval
    ghost var dbAsks: Asks                        // what callbacks asked for, by stored,
    ghost var doneAsks: Asks                      // finished
    ghost var asks: Asks                          // and outstanding node
    ghost var refused: set<Digest>                // nodes with a refused leaf
    ghost var dbWays: Ways                        // how stored
    ghost var doneWays: Ways                      // and finished nodes were taken

    ghost function Snap(): State
      reads this
    {
      State(database, batch, order, requests, raws, dbAsks, doneAsks, asks, refused, dbWays, doneWays)
    }

    /** Everything received has property `good`. */
    ghost predicate Genuine()
      reads this
    {
      Good(good, database) && Good(good, batch) && GoodAnswers(good, requests)
    }

    ghost predicate Sound(owed: multiset<Digest>, open: set<Digest>)
      reads this
    {
      && Consistent(Snap(), owed, open) && Genuine() && Queued(requests, queue, issued)
      && Covered(wanted, Snap()) && Attentive(Snap(), open)
    }

    ghost predicate Valid()
      reads this
    {
      Sound(multiset{}, {})
    }

    /** A parent that may wait for more: an answered request whose leaf was not refused. */
    ghost predicate CanWait(p: Digest)
      reads this
    {
      p != Zero() ==> Delivered(requests, p) && p !in refused
    }

    /** Present, or requested on behalf of `p` if there is such a parent. */
    ghost predicate Provided(c: Digest, p: Digest)
      reads this
    {
      Here(database, batch, c) || (c in requests && (p != Zero() ==> p in requests[c].parents))
    }

    /** What the downloader is made to ask for; the empty trie and the empty code are never
        asked for. */
    function Target(sub: Sub): set<Digest> {
      match sub
      case SubTrie(root, _, _) => if root == emptyRoot then {} else {root}
      case RawEntry(hash, _) => if hash == emptyState then {} else {hash}
    }

    /** All that the callback asked for when it was shown `v` is in `a`. */
    ghost predicate Heard(callback: Option<nat>, v: Blob, a: set<Digest>) {
      callback.Some? && react(callback.value, v).Adds? ==> AllIn(react(callback.value, v).subs, a)
    }

    ghost predicate AllIn(subs: seq<Sub>, a: set<Digest>) { forall i :: 0 <= i < |subs| ==> Target(subs[i]) <= a }

    /** The same for the leaf of an answer. */
    ghost predicate LeafHeard(callback: Option<nat>, d: Digest, data: Blob, a: set<Digest>) {
      DecodeNode(Some(d), data, 0).Ok? && OneLeaf(DecodeNode(Some(d), data, 0).value) ==>
        NodeHeard(callback, DecodeNode(Some(d), data, 0).value, a)
    }

    ghost predicate NodeHeard(callback: Option<nat>, n: Node, a: set<Digest>)
      requires OneLeaf(n)
    {
      LeafOf(n).Some? ==> Heard(callback, LeafOf(n).value, a)
    }

    /** What the leaves of answered nodes asked for is on record; `skip` are being taken apart or
        were refused. */
    ghost predicate HeardAll(m: Requests, x: Asks, skip: set<Digest>) {
      forall d :: Delivered(m, d) && d !in skip && d != Zero() ==>
        LeafHeard(m[d].callback, d, m[d].data.value, AskedBy(x, d))
    }

    ghost predicate HeardIn(db: Store, x: Asks, ways: Ways) {
      forall d :: d in ways && ways[d].Under? && d != Zero() ==>
        d in db && LeafHeard(ways[d].callback, d, db[d], AskedBy(x, d))
    }

    ghost predicate Attentive(s: State, open: set<Digest>) {
      && s.doneWays.Keys == s.batch.Keys && HeardAll(s.requests, s.asks, open + s.refused)
      && HeardIn(s.batch, s.doneAsks, s.doneWays) && HeardIn(s.db, s.dbAsks, s.dbWays)
    }

    lemma HeardMore(callback: Option<nat>, d: Digest, data: Blob, a: set<Digest>, b: set<Digest>)
      requires LeafHeard(callback, d, data, a) && a <= b
      ensures LeafHeard(callback, d, data, b)
    {
      hide DecodeNode, LeafOf;
      if LeafShown(callback, d, data) {
        var v := LeafOf(DecodeNode(Some(d), data, 0).value).value;
        AllInMore(react(callback.value, v).subs, a, b);
      }
    }

    /** The callback is shown the leaf and asks for something. */
    ghost predicate LeafShown(callback: Option<nat>, d: Digest, data: Blob) {
      && DecodeNode(Some(d), data, 0).Ok? && OneLeaf(DecodeNode(Some(d), data, 0).value)
      && var leaf := LeafOf(DecodeNode(Some(d), data, 0).value);
      leaf.Some? && callback.Some? && react(callback.value, leaf.value).Adds?
    }

    lemma AllInMore(subs: seq<Sub>, a: set<Digest>, b: set<Digest>)
      requires AllIn(subs, a) && a <= b
      ensures AllIn(subs, b)
    {}

    /** The same answers, and no less on record. */
    lemma HearMore(s: State, t: State, open: set<Digest>)
      requires Attentive(s, open) && t.refused == s.refused && t.batch == s.batch && t.db == s.db
      requires t.doneAsks == s.doneAsks && t.doneWays == s.doneWays && t.dbAsks == s.dbAsks && t.dbWays == s.dbWays
      requires forall d :: Delivered(t.requests, d) ==>
        && Delivered(s.requests, d) && t.requests[d].data == s.requests[d].data
        && t.requests[d].callback == s.requests[d].callback
      requires forall d :: AskedBy(s.asks, d) <= AskedBy(t.asks, d)
      ensures Attentive(t, open)
    {
      hide LeafHeard, HeardIn;
      forall d | Delivered(t.requests, d) && d !in open + t.refused && d != Zero()
        ensures LeafHeard(t.requests[d].callback, d, t.requests[d].data.value, AskedBy(t.asks, d))
      {
        HeardMore(s.requests[d].callback, d, s.requests[d].data.value, AskedBy(s.asks, d), AskedBy(t.asks, d));
      }
    }

    lemma HearOpen(s: State, open: set<Digest>)
      requires Attentive(s, {})
      ensures Attentive(s, open)
    {
      hide LeafHeard, HeardIn;
    }

    lemma HearClose(s: State, d: Digest)
      requires Attentive(s, {d}) && Delivered(s.requests, d)
      requires d != Zero() ==> LeafHeard(s.requests[d].callback, d, s.requests[d].data.value, AskedBy(s.asks, d))
      ensures Attentive(s, {})
    {
      hide LeafHeard, HeardIn;
    }

    lemma HearRefuse(s: State, d: Digest)
      requires Attentive(s, {d})
      ensures Attentive(s.(refused := s.refused + {d}), {})
    {
      hide LeafHeard, HeardIn;
    }

    lemma HearDeliver(s: State, t: State, d: Digest, data: Blob)
      requires Attentive(s, {}) && d in s.requests
      requires t == s.(requests := s.requests[d := s.requests[d].(data := Some(data))])
      ensures Attentive(t, {d})
    {
      hide LeafHeard, HeardIn;
      forall e | Delivered(t.requests, e) && e !in {d} + t.refused && e != Zero()
        ensures LeafHeard(t.requests[e].callback, e, t.requests[e].data.value, AskedBy(t.asks, e))
      {
        assert Delivered(s.requests, e);
      }
    }

    lemma HearAt(s: State, d: Digest)
      requires Attentive(s, {}) && Delivered(s.requests, d) && d !in s.refused && d != Zero()
      ensures LeafHeard(s.requests[d].callback, d, s.requests[d].data.value, AskedBy(s.asks, d))
    {
      hide LeafHeard, HeardIn;
    }

    lemma HearFinish(s: State, d: Digest, data: Blob, raws: set<Digest>)
      requires Attentive(s, {d}) && d in s.requests && d !in s.batch
      requires !s.requests[d].raw && d != Zero() ==> LeafHeard(s.requests[d].callback, d, data, AskedBy(s.asks, d))
      ensures Attentive(Finished(s, d, data, raws), {})
    {
      hide LeafHeard;
      var t := Finished(s, d, data, raws);
      forall e | Delivered(t.requests, e) && e !in {} + t.refused && e != Zero()
        ensures LeafHeard(t.requests[e].callback, e, t.requests[e].data.value, AskedBy(t.asks, e))
      {
        assert Delivered(s.requests, e) && e != d && AskedBy(t.asks, e) == AskedBy(s.asks, e);
      }
      forall e | e in t.doneWays && t.doneWays[e].Under? && e != Zero()
        ensures e in t.batch && LeafHeard(t.doneWays[e].callback, e, t.batch[e], AskedBy(t.doneAsks, e))
      {
        if e != d { assert AskedBy(t.doneAsks, e) == AskedBy(s.doneAsks, e); }
      }
    }

    lemma HearWritten(s: State, n: nat)
      requires Attentive(s, {}) && n <= |s.order| && forall d :: d in s.order ==> d in s.batch && d in s.doneAsks
      ensures Attentive(Written(s, n), {})
    {
      hide LeafHeard, HeardAll, Flushed;
      var t, keys := Written(s, n), s.order[..n];
      FlushedIs(s.db, s.batch, keys);
      FlushedIs(s.dbAsks, s.doneAsks, keys);
      FlushedIs(s.dbWays, s.doneWays, keys);
      forall e | e in t.dbWays && t.dbWays[e].Under? && e != Zero()
        ensures e in t.db && LeafHeard(t.dbWays[e].callback, e, t.db[e], AskedBy(t.dbAsks, e))
      {
        if e in keys {
          assert e in s.order && AskedBy(t.dbAsks, e) == AskedBy(s.doneAsks, e);
        } else {
          assert AskedBy(t.dbAsks, e) == AskedBy(s.dbAsks, e);
        }
      }
    }

    lemma HearCleared(s: State)
      requires Attentive(s, {})
      ensures Attentive(s.(batch := map[], order := [], doneAsks := map[], doneWays := map[]), {})
    {
      hide LeafHeard;
    }

    lemma HearKeys(s: State, open: set<Digest>)
      requires Attentive(s, open)
      ensures s.doneWays.Keys == s.batch.Keys
    {}

    lemma HearNone(s: State)
      requires s.batch == map[] && s.requests == map[] && s.doneWays == map[] && s.dbWays == map[]
      ensures Attentive(s, {})
    {}

    /** A stored blob on which the decoder fails when a callback asks for it as a trie. */
    ghost predicate Faulty(sub: Sub, db: Store, batch: Store) {
      && sub.SubTrie? && sub.root != emptyRoot && sub.root !in batch && sub.root in db
      && DecodeNode(Some(sub.root), db[sub.root], 0).Panic?
    }

    ghost predicate AnyFaulty(subs: seq<Sub>, db: Store, batch: Store) {
      exists i :: 0 <= i < |subs| && Faulty(subs[i], db, batch)
    }

    /** What the callback asks for when it is shown the leaf. */
    ghost function LeafSubs(callback: Option<nat>, leaf: Option<Blob>): seq<Sub> {
      if callback.Some? && leaf.Some? && react(callback.value, leaf.value).Adds?
      then react(callback.value, leaf.value).subs else []
    }

    /** What becomes of an answer because of its leaf. */
    ghost function LeafVerdict(callback: Option<nat>, leaf: Option<Blob>, db: Store, batch: Store): (r: Outcome)
      ensures r.Done? || r.Refused? || r.Crash?
    {
      if callback.None? || leaf.None? then Done
      else
        match react(callback.value, leaf.value)
        case Refuse => Refused
        case Adds(subs) => if AnyFaulty(subs, db, batch) then Crash else Done
    }

    /** What becomes of an answer in a state of the downloader. */
    ghost function Verdict(s: State, item: Item): Outcome {
      if item.hash !in s.requests then NotRequested
      else if s.requests[item.hash].data.Some? then AlreadyProcessed
      else if s.requests[item.hash].raw then Done
      else
        match DecodeNode(Some(item.hash), item.data, 0)
        case Malformed => Undecodable
        case Panic => Crash
        case Ok(n) =>
          DecodedShape(Some(item.hash), item.data, 0);
          LeafVerdict(s.requests[item.hash].callback, LeafOf(n), s.db, s.batch)
    }

    method Schedule(c: Digest, r: Request, ghost owed: multiset<Digest>, ghost open: set<Digest>, ghost x: Asks)
      requires Sound(owed + multiset(r.parents), open) && c !in batch && r.data.None? && r.deps == 0
      requires AsksFor(asks, x, c, r.parents)
      requires forall p :: p in r.parents && Delivered(requests, p) ==> c in Needs(p, requests[p].data.value, x)
      modifies this`requests, this`queue, this`asks
      ensures Sound(owed, open) && requests == Scheduled(old(requests), c, r) && asks == x
      ensures c in requests && (old(c !in requests) ==> requests[c] == r)
    {
      hide Consistent, Attentive, LeafHeard, Covered, Keeps, Good, GoodAnswers, Queued, AllLinks, Dangling, Kids,
        Needs, AsksFor;
      GoodKeeps(good, requests, Scheduled(requests, c, r));
      ScheduleOk(Snap(), owed, open, c, r, x);
      ghost var t := Snap().(requests := Scheduled(requests, c, r), asks := x);
      KeepsGrown(Snap(), t);
      CoveredKeeps(wanted, Snap(), t);
      WidenedAsks(asks, x, c, r.parents);
      HearMore(Snap(), t, open);
      asks := x;
      if c in requests {
        QueuedKeeps(requests, queue, issued, Scheduled(requests, c, r));
        requests := requests[c := requests[c].(parents := requests[c].parents + r.parents)];
      } else {
        QueuedPush(requests, queue, issued, c, r);
        queue := queue + [(c, r.depth)];
        requests := requests[c := r];
      }
      assert Snap() == t;
    }

    /** `n` more answers are awaited by `d`. */
    method Await(d: Digest, n: nat, ghost open: set<Digest>)
      requires Sound(multiset{}, open) && Delivered(requests, d) && d !in refused
      modifies this`requests
      ensures Sound(multiset{}[d := n], open)
      ensures requests == old(requests)[d := old(requests)[d].(deps := old(requests)[d].deps + n)]
    {
      hide Consistent, Attentive, LeafHeard, Covered, Keeps, Good, GoodAnswers, Queued, AllLinks, Dangling, Kids,
        Needs;
      ghost var m := requests[d := requests[d].(deps := requests[d].deps + n)];
      Bump(Snap(), multiset{}, open, d, n, Snap().(requests := m));
      KeepsGrown(Snap(), Snap().(requests := m));
      CoveredKeeps(wanted, Snap(), Snap().(requests := m));
      HearMore(Snap(), Snap().(requests := m), open);
      assert multiset{}[d := multiset{}[d] + n] == multiset{}[d := n];
      SameAnswer(good, requests, queue, issued, d, m[d]);
      requests := requests[d := requests[d].(deps := requests[d].deps + n)];
    }

    /** Registers a request under its parent, if it has one. */
    method Register(c: Digest, r: Request, parent: Digest, ghost open: set<Digest>)
      requires Sound(multiset{}, open) && c !in batch && r.data.None? && r.deps == 0 && r.parents == []
      requires CanWait(parent)
      modifies this`requests, this`queue, this`asks
      ensures Sound(multiset{}, open) && Grown(old(requests), requests)
      ensures asks == Noted(old(asks), parent, c) && c in requests && Provided(c, parent)
      ensures old(c !in requests) ==> requests[c] == r.(parents := if parent == Zero() then [] else [parent])
      ensures requests.Keys == old(requests).Keys + {c}
    {
      hide Consistent, Attentive, LeafHeard, Covered, Keeps, Good, GoodAnswers, Queued, AllLinks, Dangling, Kids,
        Needs, AsksFor, Grown, Scheduled;
      if parent != Zero() {
        Await(parent, 1, open);
        assert multiset{}[parent := 1] == multiset{} + multiset([parent]);
        AsksNoted(asks, parent, c, [parent]);
        NowNeeded(asks, parent, c, requests[parent].data.value);
        ghost var m := requests;
        Schedule(c, r.(parents := [parent]), multiset{}, open, Noted(asks, parent, c));
        GrownAwait(old(requests), parent, 1);
        GrownScheduled(m, c, r.(parents := [parent]));
        GrownTrans(old(requests), m, requests);
      } else {
        assert multiset{} == multiset{} + multiset(r.parents);
        AsksSame(asks, c, r.parents);
        Schedule(c, r, multiset{}, open, asks);
        GrownScheduled(old(requests), c, r);
      }
    }

    /** In the batch, or in the store in a form that decodes. */
    predicate Readable(d: Digest)
      reads this
    {
      d in batch || (d in database && DecodeNode(Some(d), database[d], 0).Ok?)
    }

    /** Asks for a sub-trie that is not readable yet. `crash` is the decoder's fault on a stored
        blob. */
    method AddSubTrie(root: Digest, depth: int, parent: Digest, callback: Option<nat>, ghost open: set<Digest>)
      returns (crash: bool)
      requires Sound(multiset{}, open) && CanWait(parent)
      modifies this`requests, this`queue, this`wanted, this`asks
      ensures Sound(multiset{}, open) && Grown(old(requests), requests) && old(wanted) <= wanted
      ensures !crash && root != emptyRoot ==>
        root in wanted && asks == Noted(old(asks), parent, root) && Provided(root, parent)
      ensures crash || root == emptyRoot ==> asks == old(asks) && requests == old(requests)
      ensures crash <==> Faulty(SubTrie(root, depth, callback), database, batch)
      ensures requests.Keys <= old(requests).Keys + {root} && (Readable(root) ==> requests == old(requests))
      ensures !crash && root != emptyRoot && !Readable(root) ==> root in requests
      ensures root in requests && old(root !in requests) ==>
        requests[root] == Request(None, false, if parent == Zero() then [] else [parent], depth, 0, callback)
    {
      hide Consistent, Attentive, LeafHeard, Covered, Keeps, Good, GoodAnswers, Queued, AllLinks, Dangling, Kids,
        Needs, DecodeNode;
      if root == emptyRoot { return false; }
      if root in batch {
        NoteHere(root, parent, open);
        return false;
      }
      if root in database {
        var local := DecodeNode(Some(root), database[root], 0);
        if local.Panic? { return true; }
        if local.Ok? {
          NoteHere(root, parent, open);
          return false;
        }
      }
      Register(root, Request(None, false, [], depth, 0, callback), parent, open);
      CoveredMore(wanted, Snap(), root);
      wanted := wanted + {root};
      return false;
    }

    ghost method NoteHere(c: Digest, parent: Digest, open: set<Digest>)
      requires Sound(multiset{}, open) && CanWait(parent) && Here(database, batch, c)
      modifies this`wanted, this`asks
      ensures Sound(multiset{}, open) && wanted == old(wanted) + {c} && asks == Noted(old(asks), parent, c)
    {
      hide Consistent, Attentive, LeafHeard, Covered, Keeps, Good, GoodAnswers, Queued, AllLinks, Dangling, Kids,
        Needs;
      ghost var t := Snap().(asks := Noted(asks, parent, c));
      NoteOk(Snap(), open, parent, c);
      HearMore(Snap(), t, open);
      KeepsGrown(Snap(), t);
      CoveredKeeps(wanted, Snap(), t);
      CoveredMore(wanted, t, c);
      asks := Noted(asks, parent, c);
      wanted := wanted + {c};
    }

    /** Asks for an entry that is not looked into. */
    method AddRawEntry(hash: Digest, depth: int, parent: Digest, ghost open: set<Digest>)
      requires Sound(multiset{}, open) && CanWait(parent)
      modifies this`requests, this`queue, this`wanted, this`asks
      ensures Sound(multiset{}, open) && Grown(old(requests), requests) && old(wanted) <= wanted
      ensures hash != emptyState ==>
        hash in wanted && asks == Noted(old(asks), parent, hash) && Provided(hash, parent)
      ensures hash == emptyState ==> asks == old(asks) && requests == old(requests)
      ensures requests.Keys <= old(requests).Keys + {hash}
      ensures hash != emptyState && !Here(database, batch, hash) ==> hash in requests
      ensures hash in requests && old(hash !in requests) ==>
        requests[hash] == Request(None, true, if parent == Zero() then [] else [parent], depth, 0, None)
    {
      hide Consistent, Attentive, LeafHeard, Covered, Keeps, Good, GoodAnswers, Queued, AllLinks, Dangling, Kids,
        Needs;
      if hash == emptyState { return; }
      if hash !in batch && hash !in database {
        Register(hash, Request(None, true, [], depth, 0, None), parent, open);
        CoveredMore(wanted, Snap(), hash);
        wanted := wanted + {hash};
      } else {
        NoteHere(hash, parent, open);
      }
    }

    /** Moves a finished node to the batch, and with it every ancestor that waited for nothing
        else. */
    method Settle(d: Digest, data: Blob, ghost owed: multiset<Digest>, ghost raw: bool)
      requires Sound(owed, {d}) && d in requests && AllLinks(requests)[d] == 0 && owed[d] == 0 && good(d, data)
      requires d !in refused && (raw || !Dangling(database, batch, d, data, asks))
      requires Delivered(requests, d) ==> requests[d].data == Some(data)
      requires !requests[d].raw && d != Zero() ==> LeafHeard(requests[d].callback, d, data, AskedBy(asks, d))
      modifies this`requests, this`batch, this`order, this`raws, this`asks, this`doneAsks, this`doneWays
      ensures Sound(owed, {}) && |requests| < |old(requests)| && old(order) < order && order[|old(order)|] == d
      ensures Moved(old(Snap()), Snap()) && d in batch && batch[d] == data
      ensures d in doneAsks && doneAsks[d] == old(AskedBy(asks, d))
      ensures d in doneWays && doneWays[d] == WayOf(old(requests)[d])
      ensures raws == if raw then old(raws) + {d} else old(raws)
      decreases |requests|, 0
    {
      hide Consistent, Attentive, LeafHeard, Covered, Keeps, Good, GoodAnswers, Queued, AllLinks, Dangling, Kids,
        Needs, Moved;
      ghost var s0 := Snap();
      var parents := requests[d].parents;
      Put(d, data, owed, raw);
      ghost var s1 := Snap();
      MovedSame(s1);
      var k := 0;
      assert parents[0..] == parents;
      while k < |parents|
        invariant 0 <= k <= |parents|
        invariant Sound(owed + multiset(parents[k..]), {})
        invariant |requests| <= |s1.requests| && s1.order <= order && raws == s1.raws && Moved(s1, Snap())
      {
        TellNext(owed, parents, k);
        ghost var s2 := Snap();
        Tell(parents[k], owed + multiset(parents[k + 1..]));
        MovedTrans(s1, s2, Snap());
        k := k + 1;
      }
      assert parents[k..] == [];
      assert owed + multiset(parents[k..]) == owed;
      MovedTrans(s0, s1, Snap());
      MovedAt(s1, Snap(), d);
    }

    /** Puts a finished node into the batch; its parents are to be told. */
    method Put(d: Digest, data: Blob, ghost owed: multiset<Digest>, ghost raw: bool)
      requires Sound(owed, {d}) && d in requests && AllLinks(requests)[d] == 0 && owed[d] == 0 && good(d, data)
      requires d !in refused && (raw || !Dangling(database, batch, d, data, asks))
      requires Delivered(requests, d) ==> requests[d].data == Some(data)
      requires !requests[d].raw && d != Zero() ==> LeafHeard(requests[d].callback, d, data, AskedBy(asks, d))
      modifies this`requests, this`batch, this`order, this`raws, this`asks, this`doneAsks, this`doneWays
      ensures Sound(owed + multiset(old(requests)[d].parents), {}) && |requests| < |old(requests)|
      ensures Moved(old(Snap()), Snap()) && order == old(order) + [d] && batch == old(batch)[d := data]
      ensures d in doneAsks && doneAsks[d] == old(AskedBy(asks, d))
      ensures d in doneWays && doneWays[d] == WayOf(old(requests)[d])
      ensures raws == if raw then old(raws) + {d} else old(raws)
    {
      hide Consistent, Attentive, LeafHeard, Covered, Keeps, Good, GoodAnswers, Queued, AllLinks, Dangling, Kids,
        Needs, Moved, Finished, AskedBy;
      ghost var s, more := Snap(), if raw then raws + {d} else raws;
      ghost var t := Finished(s, d, data, more);
      Finish(s, owed, d, data, more);
      HearKeys(s, {d});
      FinishRest(s, owed, d, data, more);
      FinishGood(good, batch, requests, queue, issued, d, data);
      CoveredKeeps(wanted, s, t);
      FreshKey(s, owed, d);
      HearFinish(s, d, data, more);
      Move(d, data, more);
    }

    method Move(d: Digest, data: Blob, ghost more: set<Digest>)
      requires d in requests
      modifies this`requests, this`batch, this`order, this`raws, this`asks, this`doneAsks, this`doneWays
      ensures Snap() == Finished(old(Snap()), d, data, more)
    {
      hide AskedBy;
      Book(d, WayOf(requests[d]), more);
      Shift(d, data);
    }

    method Shift(d: Digest, data: Blob)
      modifies this`requests, this`batch, this`order
      ensures Snap() ==
        old(Snap()).(batch := old(batch)[d := data], order := old(order) + [d], requests := old(requests) - {d})
    {
      batch := batch[d := data];
      order := order + [d];
      requests := requests - {d};
    }

    ghost method Book(d: Digest, way: Way, more: set<Digest>)
      modifies this`raws, this`asks, this`doneAsks, this`doneWays
      ensures Snap() == old(Snap()).(doneAsks := old(doneAsks)[d := AskedBy(old(asks), d)], asks := old(asks) - {d},
        raws := more, doneWays := old(doneWays)[d := way])
    {
      doneWays := doneWays[d := way];
      doneAsks, asks, raws := doneAsks[d := AskedBy(asks, d)], asks - {d}, more;
    }

    /** One answer less is awaited by `p`; the last one finishes it. */
    method Tell(p: Digest, ghost owed: multiset<Digest>)
      requires Sound(owed + multiset{p}, {})
      modifies this`requests, this`batch, this`order, this`raws, this`asks, this`doneAsks, this`doneWays
      ensures Sound(owed, {}) && Moved(old(Snap()), Snap())
      ensures |requests| <= |old(requests)| && old(order) <= order && raws == old(raws)
      ensures p in old(requests)
      ensures old(requests)[p].deps == 1 ==> p in batch
      decreases |requests|, 1
    {
      hide Consistent, Attentive, LeafHeard, Covered, Keeps, Good, GoodAnswers, Queued, AllLinks, Dangling, Kids,
        Needs, Moved;
      ghost var s0 := Snap();
      Decrement(p, owed);
      if requests[p].deps == 0 {
        MovedStep(s0, Snap());
        ghost var s1 := Snap();
        if p != Zero() { HearAt(s0, p); }
        Settle(p, requests[p].data.value, owed, false);
        MovedTrans(s0, s1, Snap());
      } else {
        MovedStep(s0, Snap());
      }
    }

    lemma ToldKeeps(owed: multiset<Digest>, p: Digest, t: State)
      requires Sound(owed, {}) && p in requests
      requires t == Snap().(requests := requests[p := requests[p].(deps := requests[p].deps - 1)])
      ensures Covered(wanted, t) && Attentive(t, {}) && Attentive(t, {p})
    {
      hide Consistent, Attentive, LeafHeard, Covered, Keeps, Good, GoodAnswers, Queued, AllLinks;
      KeepsGrown(Snap(), t);
      CoveredKeeps(wanted, Snap(), t);
      HearMore(Snap(), t, {});
      HearOpen(t, {p});
    }

    method Decrement(p: Digest, ghost owed: multiset<Digest>)
      requires Sound(owed + multiset{p}, {})
      modifies this`requests
      ensures p in old(requests)
      ensures requests == old(requests)[p := old(requests)[p].(deps := old(requests)[p].deps - 1)]
      ensures requests.Keys == old(requests).Keys && |requests| == |old(requests)| && Delivered(requests, p)
      ensures Sound(owed, if requests[p].deps == 0 then {p} else {})
      ensures requests[p].deps == 0 ==>
        && AllLinks(requests)[p] == 0 && owed[p] == 0 && good(p, requests[p].data.value) && p !in refused
        && !Dangling(database, batch, p, requests[p].data.value, asks)
    {
      hide Consistent, Attentive, LeafHeard, Covered, Keeps, Good, GoodAnswers, Queued, AllLinks, Dangling, Kids,
        Needs;
      OwedLives(Snap(), owed, p);
      ghost var m := requests[p := requests[p].(deps := requests[p].deps - 1)];
      ghost var t := Snap().(requests := m);
      Told(Snap(), owed, p, t);
      SameAnswer(good, requests, queue, issued, p, m[p]);
      GoodAt(good, m, p);
      ToldKeeps(owed + multiset{p}, p, t);
      requests := requests[p := requests[p].(deps := requests[p].deps - 1)];
      assert Snap() == t;
    }

    lemma NoneIn(a: set<Digest>)
      ensures AllIn([], a)
    {}

    lemma OneMore(subs: seq<Sub>, i: nat, a: set<Digest>, b: set<Digest>)
      requires i < |subs| && AllIn(subs[..i], a) && a <= b && Target(subs[i]) <= b
      ensures AllIn(subs[..i + 1], b)
    {
      assert forall j :: 0 <= j < i ==> subs[..i][j] == subs[..i + 1][j];
    }

    method AddOne(sub: Sub, d: Digest) returns (crash: bool)
      requires Sound(multiset{}, {d}) && Delivered(requests, d) && d !in refused
      modifies this`requests, this`queue, this`wanted, this`asks
      ensures Sound(multiset{}, {d}) && Grown(old(requests), requests) && old(wanted) <= wanted
      ensures old(AskedBy(asks, d)) <= AskedBy(asks, d)
      ensures !crash && d != Zero() ==> Target(sub) <= AskedBy(asks, d)
      ensures crash <==> Faulty(sub, database, batch)
      ensures NewOnes(old(requests), requests, [sub], [], None)
    {
      hide Consistent, Attentive, LeafHeard, Covered, Keeps, Good, GoodAnswers, Queued, AllLinks, Dangling, Kids,
        Needs, Grown, DecodeNode;
      crash := false;
      match sub {
        case SubTrie(root, depth, callback) => crash := AddSubTrie(root, depth, d, callback, {d});
        case RawEntry(hash, depth) => AddRawEntry(hash, depth, d, {d});
      }
      forall c | c in requests && c !in old(requests)
        ensures requests[c].data.None? && FromSub([sub][0], c, requests[c]) {}
    }

    /** Runs what a leaf callback asked for. */
    method AddAll(subs: seq<Sub>, d: Digest) returns (crash: bool)
      requires Sound(multiset{}, {d}) && Delivered(requests, d) && d !in refused
      modifies this`requests, this`queue, this`wanted, this`asks
      ensures Sound(multiset{}, {d}) && Grown(old(requests), requests) && old(wanted) <= wanted
      ensures !crash && d != Zero() ==> AllIn(subs, AskedBy(asks, d))
      ensures crash <==> AnyFaulty(subs, database, batch)
      ensures !crash ==> NewOnes(old(requests), requests, subs, [], None)
    {
      hide Consistent, Attentive, LeafHeard, Covered, Keeps, Good, GoodAnswers, Queued, AllLinks, Dangling, Kids,
        Needs, Grown, AllIn, Target, Faulty, NewOnes;
      crash := false;
      var i := 0;
      GrownSame(requests);
      NoneIn(AskedBy(asks, d));
      assert subs[..0] == [];
      NewNone(requests, [], [], None);
      while i < |subs| && !crash
        invariant 0 <= i <= |subs|
        invariant Sound(multiset{}, {d}) && Grown(old(requests), requests) && old(wanted) <= wanted
        invariant !crash && d != Zero() ==> AllIn(subs[..i], AskedBy(asks, d))
        invariant crash ==> AnyFaulty(subs, database, batch)
        invariant !crash ==> NewOnes(old(requests), requests, subs[..i], [], None)
        invariant !crash ==> forall j :: 0 <= j < i ==> !Faulty(subs[j], database, batch)
      {
        GrownDelivered(old(requests), requests, d);
        ghost var m, x := requests, asks;
        crash := AddOne(subs[i], d);
        if !crash { NewSub(old(requests), m, requests, subs, i); }
        GrownTrans(old(requests), m, requests);
        if !crash && d != Zero() { OneMore(subs, i, AskedBy(x, d), AskedBy(asks, d)); }
        i := i + 1;
      }
      assert i == |subs| ==> subs[..i] == subs;
    }

    /** Shows a value to the callback. */
    method Show(v: Blob, callback: Option<nat>, d: Digest) returns (res: Outcome)
      requires Sound(multiset{}, {d}) && Delivered(requests, d) && d !in refused
      modifies this`requests, this`queue, this`wanted, this`asks
      ensures Sound(multiset{}, {d}) && Grown(old(requests), requests) && old(wanted) <= wanted
      ensures res == LeafVerdict(callback, Some(v), database, batch)
      ensures res.Refused? ==> requests == old(requests) && asks == old(asks)
      ensures res.Done? && d != Zero() ==> Heard(callback, v, AskedBy(asks, d))
      ensures res.Done? ==> NewOnes(old(requests), requests, LeafSubs(callback, Some(v)), [], None)
    {
      hide Consistent, Attentive, LeafHeard, Covered, Keeps, Good, GoodAnswers, Queued, AllLinks, Dangling, Kids,
        Needs, AllIn, Grown, AnyFaulty, NewOnes;
      GrownSame(requests);
      NewNone(requests, [], [], None);
      res := Done;
      if callback.Some? {
        match react(callback.value, v) {
          case Refuse => res := Refused;
          case Adds(subs) =>
            var crash := AddAll(subs, d);
            if crash { res := Crash; }
        }
      }
    }

    lemma NoLeaf(callback: Option<nat>)
      ensures forall db, batch :: LeafVerdict(callback, None, db, batch) == Done
    {}

    /** The references of a delivered node that are not present yet. Its leaf, if it has one,
        is shown to the callback. */
    method Children(d: Digest, n: Node, depth: int, callback: Option<nat>)
      returns (kids: seq<(Digest, int)>, res: Outcome)
      requires Sound(multiset{}, {d}) && Delivered(requests, d) && d !in refused && OneLeaf(n)
      modifies this`requests, this`queue, this`wanted, this`asks
      ensures Sound(multiset{}, {d}) && Grown(old(requests), requests) && old(wanted) <= wanted
      ensures res == LeafVerdict(callback, LeafOf(n), database, batch)
      ensures res.Refused? ==> requests == old(requests) && asks == old(asks)
      ensures res.Done? ==> kids == Absent(ChildList(n, depth), database, batch)
      ensures res.Done? && d != Zero() ==> NodeHeard(callback, n, AskedBy(asks, d))
      ensures res.Done? ==> NewOnes(old(requests), requests, LeafSubs(callback, LeafOf(n)), [], None)
    {
      hide Consistent, Attentive, LeafHeard, Covered, Keeps, Good, GoodAnswers, Queued, AllLinks, Dangling, Kids,
        Needs, Grown, Heard, ChildList, DirectRefs, LeafVerdict, LeafOf, NewOnes, LeafSubs;
      NoLeaf(callback);
      NewNone(requests, LeafSubs(callback, LeafOf(n)), [], None);
      var children := Gather(n, depth);
      ChildListRefs(n, depth);
      GrownSame(requests);
      kids, res := [], Done;
      var i := 0;
      while i < |children|
        invariant 0 <= i <= |children|
        invariant Sound(multiset{}, {d}) && Grown(old(requests), requests) && old(wanted) <= wanted
        invariant i < |children| ==> requests == old(requests) && asks == old(asks)
        invariant res.Done? && kids == Absent(children[..i], database, batch)
        invariant NewOnes(old(requests), requests, LeafSubs(callback, LeafOf(n)), [], None)
        invariant forall j :: 0 <= j < i && children[j].0.Value? && d != Zero() ==>
          Heard(callback, children[j].0.blob, AskedBy(asks, d))
        invariant forall j :: 0 <= j < i && children[j].0.Value? ==>
          LeafVerdict(callback, Some(children[j].0.blob), database, batch) == Done
      {
        var child := children[i];
        assert children[..i + 1][..i] == children[..i];
        if child.0.Value? {
          res := Show(child.0.blob, callback, d);
          if !res.Done? { return kids, res; }
        }
        if child.0.HashRef? && child.0.digest !in batch && child.0.digest !in database {
          kids := kids + [(child.0.digest, child.1)];
        }
        i := i + 1;
      }
      assert children[..i] == children;
    }

    /** Schedules the missing references of `d`, which has them booked already. */
    method ScheduleAll(d: Digest, data: Blob, kids: seq<(Digest, int)>, callback: Option<nat>)
      requires Sound(multiset{}[d := |kids|], {d}) && Delivered(requests, d) && requests[d].data == Some(data)
      requires forall i :: 0 <= i < |kids| ==> !Here(database, batch, kids[i].0) && kids[i].0 in Kids(d, data)
      modifies this`requests, this`queue, this`asks
      ensures Sound(multiset{}, {d}) && Grown(old(requests), requests) && asks == old(asks)
      ensures AllUnder(requests, kids, d) && NewOnes(old(requests), requests, [], kids, callback)
    {
      hide Consistent, Attentive, LeafHeard, Covered, Keeps, Good, GoodAnswers, Queued, AllLinks, Dangling, Kids,
        Needs, AsksFor, Grown, NewOnes;
      GrownSame(requests);
      assert kids[..0] == [];
      NewNone(requests, [], kids[..0], callback);
      var i := 0;
      while i < |kids|
        invariant 0 <= i <= |kids| && asks == old(asks)
        invariant Sound(multiset{}[d := |kids| - i], {d}) && Grown(old(requests), requests)
        invariant AllUnder(requests, kids[..i], d) && NewOnes(old(requests), requests, [], kids[..i], callback)
      {
        assert multiset{}[d := |kids| - i] == multiset{}[d := |kids| - (i + 1)] + multiset([d]);
        GrownDelivered(old(requests), requests, d);
        AsksSame(asks, kids[i].0, [d]);
        OwnNeed(d, data, asks, kids[i].0);
        ghost var m := requests;
        Schedule(kids[i].0, Request(None, false, [d], kids[i].1, 0, callback), multiset{}[d := |kids| - (i + 1)], {d},
          asks);
        GrownScheduled(m, kids[i].0, Request(None, false, [d], kids[i].1, 0, callback));
        NewScheduled(m, kids[i], Request(None, false, [d], kids[i].1, 0, callback));
        NewKid(old(requests), m, requests, kids, i, callback);
        GrownTrans(old(requests), m, requests);
        GrownParents(m, requests, kids[..i], d);
        assert kids[..i + 1] == kids[..i] + [kids[i]];
        i := i + 1;
      }
      assert multiset{}[d := 0] == multiset{};
      assert kids[..i] == kids;
    }

    /** A raw answer that, read as a node, refers to something absent other than itself. */
    ghost predicate Blind(item: Item)
      reads this
    {
      && item.hash in requests && requests[item.hash].raw && requests[item.hash].data.None?
      && exists c :: c in Kids(item.hash, item.data) && c != item.hash && !Here(database, batch, c)
    }

    /** Wherever flushing stops, the store is closed. */
    ghost predicate SafeToFlush()
      reads this
    {
      PrefixesClosed(Snap())
    }

    /** Takes one answer. */
    method ProcessOne(item: Item) returns (res: Outcome, committed: bool)
      requires Valid() && good(item.hash, item.data)
      modifies this`requests, this`queue, this`wanted, this`batch, this`order, this`raws, this`asks, this`doneAsks,
        this`doneWays, this`refused
      ensures !res.Crash? ==> Valid() && old(wanted) <= wanted
      ensures committed ==> old(order) < order
      ensures !committed ==> order == old(order) && batch == old(batch)
      ensures res == old(Verdict(Snap(), item))
      ensures res.NotRequested? || res.AlreadyProcessed? || res.Undecodable? ==> Snap() == old(Snap())
      ensures res.Refused? ==>
        && requests == old(requests)[item.hash := old(requests)[item.hash].(data := Some(item.data))]
        && batch == old(batch)
      ensures !res.Crash? ==> Retains(old(Snap()), Snap())
      ensures res.Done? ==> Kept(item, old(requests[item.hash].raw), old(requests[item.hash].callback))
      ensures res.Done? ==> RightlyNew(old(Snap()), requests, item)
      ensures refused == if res.Refused? then old(refused) + {item.hash} else old(refused)
      ensures raws == if old(Blind(item)) then old(raws) + {item.hash} else old(raws)
      ensures !res.Crash? && old(raws) == {} ==> (SafeToFlush() <==> !old(Blind(item)))
    {
      hide Consistent, Attentive, LeafHeard, Covered, Keeps, Good, GoodAnswers, Queued, AllLinks, Dangling, Kids,
        Needs, DecodeNode, PrefixesClosed, Retains, LeafVerdict, LeafOf, NewOnes, Trimmed;
      var d := item.hash;
      GrownSame(requests);
      RetainsGrown(Snap(), Snap());
      if d !in requests {
        FlushNow(Snap());
        return NotRequested, false;
      }
      if requests[d].data.Some? {
        FlushNow(Snap());
        return AlreadyProcessed, false;
      }
      if requests[d].raw {
        ghost var m := requests;
        TakeRaw(item);
        NewTrimmed(m, requests);
        return Done, true;
      }
      var decoded := DecodeNode(Some(d), item.data, 0);
      if decoded.Malformed? {
        FlushNow(Snap());
        return Undecodable, false;
      }
      if decoded.Panic? { return Crash, false; }
      DecodedShape(Some(d), item.data, 0);
      KidsOf(d, item.data);
      res, committed := Unpack(d, item.data, decoded.value);
      if !res.Crash? { FlushNow(Snap()); }
    }

    /** The requests that an accepted answer leads to: what its leaf's callback asks for, and its
        absent references with their depths, under the callback of the answer itself. */
    ghost predicate RightlyNew(s: State, m: Requests, item: Item)
      requires item.hash in s.requests
    {
      var r := s.requests[item.hash];
      if r.raw then NewOnes(s.requests, m, [], [], None)
      else
        match DecodeNode(Some(item.hash), item.data, 0)
        case Ok(n) =>
          DecodedShape(Some(item.hash), item.data, 0);
          var kids := Absent(ChildList(n, r.depth), s.db, s.batch);
          NewOnes(s.requests, m, LeafSubs(r.callback, LeafOf(n)), kids, r.callback)
        case _ => false
    }

    /** An accepted answer is finished, or waits for something; and the leaf's callback was
        heard. */
    ghost predicate Kept(item: Item, raw: bool, callback: Option<nat>)
      reads this
    {
      var d := item.hash;
      && (if d in batch then
            batch[d] == item.data && d in doneAsks && d in doneWays
            && doneWays[d] == if raw then Unread else Under(callback)
          else
            Delivered(requests, d) && requests[d].data.value == item.data && requests[d].deps > 0
            && requests[d].callback == callback)
      && (!raw && d != Zero() ==>
            LeafHeard(callback, d, item.data, if d in batch then AskedBy(doneAsks, d) else AskedBy(asks, d)))
      && (raw ==> d in batch)
    }

    lemma NodeIsHeard(callback: Option<nat>, d: Digest, data: Blob, n: Node, a: set<Digest>)
      requires OneLeaf(n) && DecodeNode(Some(d), data, 0) == Ok(n) && NodeHeard(callback, n, a)
      ensures LeafHeard(callback, d, data, a)
    {
      hide DecodeNode, NodeHeard;
    }

    lemma KeptSo(d: Digest, data: Blob, n: Node, callback: Option<nat>)
      requires OneLeaf(n) && DecodeNode(Some(d), data, 0) == Ok(n)
      requires
        || (d in batch && batch[d] == data && d in doneAsks && d in doneWays && doneWays[d] == Under(callback))
        || (d !in batch && Delivered(requests, d) && requests[d].data.value == data && requests[d].deps > 0
            && requests[d].callback == callback)
      requires d != Zero() ==>
        NodeHeard(callback, n, if d in batch then AskedBy(doneAsks, d) else AskedBy(asks, d))
      ensures Kept(Item(d, data), false, callback)
    {
      hide DecodeNode, NodeHeard;
    }

    /** A raw answer is finished at once. */
    method TakeRaw(item: Item)
      requires Valid() && good(item.hash, item.data)
      requires item.hash in requests && requests[item.hash].raw && requests[item.hash].data.None?
      modifies this`requests, this`batch, this`order, this`raws, this`asks, this`doneAsks, this`doneWays
      ensures Valid() && old(order) < order && order[|old(order)|] == item.hash && Kept(item, true, None)
      ensures Retains(old(Snap()), Snap()) && Trimmed(old(requests), requests)
      ensures raws == if old(Blind(item)) then old(raws) + {item.hash} else old(raws)
      ensures old(raws) == {} ==> (SafeToFlush() <==> !old(Blind(item)))
    {
      hide Consistent, Attentive, LeafHeard, Covered, Keeps, Good, GoodAnswers, Queued, AllLinks, Dangling, Kids,
        Needs, DecodeNode, PrefixesClosed;
      var d := item.hash;
      ghost var s := Snap();
      Unanswered(s, d);
      BlindIs(s, d, item.data);
      OpenOk(s, multiset{}, {d});
      HearOpen(s, {d});
      ghost var blind := Blind(item);
      Settle(d, item.data, multiset{}, blind);
      MovedRetains(s, Snap());
      if blind {
        ghost var c :| c in Kids(d, item.data) && c != d && !Here(s.db, s.batch, c);
        InBatch(Snap());
        if s.raws == {} { BlindFlush(s, Snap(), d, c); }
      } else {
        FlushNow(Snap());
      }
    }

    /** Takes the answer down. */
    method Deliver(d: Digest, data: Blob)
      requires Valid() && good(d, data) && d in requests && requests[d].data.None? && !requests[d].raw
      modifies this`requests
      ensures Sound(multiset{}, {d}) && requests == old(requests)[d := old(requests)[d].(data := Some(data))]
      ensures requests[d].deps == 0 && d !in refused
    {
      hide Consistent, Attentive, LeafHeard, Covered, Keeps, Good, GoodAnswers, Queued, AllLinks, Dangling, Kids,
        Needs;
      ghost var t := Snap().(requests := requests[d := requests[d].(data := Some(data))]);
      DeliverOk(Snap(), d, data, t);
      HearDeliver(Snap(), t, d, data);
      KeepsGrown(Snap(), t);
      CoveredKeeps(wanted, Snap(), t);
      GoodDeliver(good, requests, d, data);
      QueuedKeeps(requests, queue, issued, requests[d := requests[d].(data := Some(data))]);
      requests := requests[d := requests[d].(data := Some(data))];
    }

    /** A node whose leaf was refused stays behind. */
    ghost method Refuse(d: Digest)
      requires Sound(multiset{}, {d}) && Delivered(requests, d) && requests[d].deps == 0
      modifies this`refused
      ensures Valid() && refused == old(refused) + {d}
    {
      hide Consistent, Attentive, LeafHeard, Covered, Keeps, Good, GoodAnswers, Queued, AllLinks, Dangling, Kids,
        Needs;
      ghost var t := Snap().(refused := refused + {d});
      RefuseOk(Snap(), d);
      HearRefuse(Snap(), d);
      KeepsGrown(Snap(), t);
      CoveredKeeps(wanted, Snap(), t);
      refused := refused + {d};
      assert Snap() == t;
    }

    /** Takes a delivered node apart: asks for what is missing below it, or finishes it. */
    method Unpack(d: Digest, data: Blob, n: Node) returns (res: Outcome, committed: bool)
      requires Valid() && good(d, data) && d in requests && requests[d].data.None? && !requests[d].raw
      requires OneLeaf(n) && DecodeNode(Some(d), data, 0) == Ok(n) && DirectRefs(n) == Kids(d, data)
      modifies this`requests, this`queue, this`wanted, this`batch, this`order, this`raws, this`asks, this`doneAsks,
        this`doneWays, this`refused
      ensures !res.Crash? ==> Valid() && old(wanted) <= wanted
      ensures committed ==> old(order) < order && res.Done?
      ensures !committed ==> order == old(order) && batch == old(batch)
      ensures res == LeafVerdict(old(requests[d].callback), LeafOf(n), database, old(batch))
      ensures !res.Crash? ==> Retains(old(Snap()), Snap())
      ensures res.Refused? ==> requests == old(requests)[d := old(requests)[d].(data := Some(data))]
      ensures raws == old(raws)
      ensures refused == if res.Refused? then old(refused) + {d} else old(refused)
      ensures res.Done? ==> Kept(Item(d, data), false, old(requests[d].callback))
      ensures res.Done? ==>
        NewOnes(old(requests), requests, LeafSubs(old(requests[d].callback), LeafOf(n)),
          Absent(ChildList(n, old(requests[d].depth)), database, old(batch)), old(requests[d].callback))
    {
      hide Consistent, Attentive, Covered, Keeps, Good, GoodAnswers, Queued, AllLinks, Dangling, Kids, Needs,
        DirectRefs, DecodeNode, NodeHeard, Grown, Moved, Kept, Absent, ChildList, Asked, Retains, LeafVerdict, LeafOf,
        NewOnes, LeafSubs, LeafHeard, AfterTaken;
      ghost var s0 := Snap();
      Deliver(d, data);
      ghost var m, s1 := requests, Snap();
      RetainsDelivered(s0, s1, d, data);
      var kids;
      var callback := requests[d].callback;
      var depth := requests[d].depth;
      kids, res := Children(d, n, depth, callback);
      if res.Crash? { return res, false; }
      ghost var s2 := Snap();
      RetainsGrown(s1, s2);
      RetainsTrans(s0, s1, s2);
      if res.Done? { NewDelivered(s0.requests, s2.requests, d, data, LeafSubs(callback, LeafOf(n)), [], None); }
      if res.Refused? {
        Refuse(d);
        SameRetained(s0, s2, Snap());
        return res, false;
      }
      GrownDelivered(m, requests, d);
      forall c ensures Asked(kids, c) <==> c in Kids(d, data) && !Here(database, batch, c) {
        AbsentRefs(n, depth, database, batch, c);
      }
      committed := Conclude(d, data, n, kids);
      RetainsTrans(s0, s2, Snap());
      NewAfter(s0.requests, s2.requests, requests, LeafSubs(callback, LeafOf(n)), kids, callback, committed);
    }

    /** Finishes an unpacked node that misses nothing, or asks for what it misses. */
    method Conclude(d: Digest, data: Blob, n: Node, kids: seq<(Digest, int)>) returns (committed: bool)
      requires Sound(multiset{}, {d}) && Delivered(requests, d) && requests[d].data == Some(data) && d !in refused
      requires good(d, data) && !requests[d].raw && OneLeaf(n) && DecodeNode(Some(d), data, 0) == Ok(n)
      requires forall c :: Asked(kids, c) <==> c in Kids(d, data) && !Here(database, batch, c)
      requires d != Zero() ==> NodeHeard(requests[d].callback, n, AskedBy(asks, d))
      modifies this`requests, this`queue, this`batch, this`order, this`raws, this`asks, this`doneAsks, this`doneWays
      ensures Valid() && Retains(old(Snap()), Snap()) && raws == old(raws)
      ensures if committed then old(order) < order else order == old(order) && batch == old(batch)
      ensures Kept(Item(d, data), false, old(requests[d].callback))
      ensures AfterTaken(old(requests), requests, kids, old(requests[d].callback), committed)
    {
      hide Consistent, Attentive, Covered, Keeps, Good, GoodAnswers, Queued, AllLinks, Dangling, Kids, Needs,
        DecodeNode, NodeHeard, Grown, Moved, Kept, Asked, Retains, NewOnes, LeafHeard, Trimmed;
      ghost var s2 := Snap();
      var callback := requests[d].callback;
      if d != Zero() { NodeIsHeard(callback, d, data, n, AskedBy(asks, d)); }
      committed := |kids| == 0 && requests[d].deps == 0;
      if committed {
        forall c | c in Kids(d, data) ensures Here(database, batch, c) { NoneAsked(kids, c); }
        NothingMissing(Snap(), d);
        Settle(d, data, multiset{}, false);
        MovedRetains(s2, Snap());
      } else {
        DepsNat(Snap(), {d}, d);
        Pursue(d, data, kids);
        RetainsGrown(s2, Snap());
      }
      KeptSo(d, data, n, callback);
    }

    /** Asks for the missing children of an unpacked node. */
    method Pursue(d: Digest, data: Blob, kids: seq<(Digest, int)>)
      requires Sound(multiset{}, {d}) && Delivered(requests, d) && requests[d].data == Some(data) && d !in refused
      requires requests[d].deps + |kids| > 0
      requires forall c :: Asked(kids, c) <==> c in Kids(d, data) && !Here(database, batch, c)
      requires d != Zero() ==> LeafHeard(requests[d].callback, d, data, AskedBy(asks, d))
      modifies this`requests, this`queue, this`asks
      ensures Valid() && asks == old(asks) && Grown(old(requests), requests)
      ensures NewOnes(old(requests), requests, [], kids, old(requests[d].callback))
      ensures Delivered(requests, d) && requests[d].data == Some(data) && requests[d].deps > 0 && d !in batch
      ensures requests[d].callback == old(requests[d].callback)
    {
      hide Consistent, Attentive, LeafHeard, Covered, Keeps, Good, GoodAnswers, Queued, AllLinks, Dangling, Kids,
        Needs, Grown;
      forall i | 0 <= i < |kids| ensures kids[i].0 in Kids(d, data) && !Here(database, batch, kids[i].0) {
        assert Asked(kids, kids[i].0);
      }
      Await(d, |kids|, {d});
      ghost var m := requests;
      GrownAwait(old(requests), d, |kids|);
      ScheduleAll(d, data, kids, requests[d].callback);
      NewAwaited(old(requests), requests, d, |kids|, kids, old(requests[d].callback));
      GrownTrans(old(requests), m, requests);
      GrownDelivered(m, requests, d);
      NowLinked(database, batch, requests, d, Kids(d, data), kids);
      CloseOk(Snap(), multiset{}, d);
      HearClose(Snap(), d);
      FreshKey(Snap(), multiset{}, d);
    }

    constructor (database: Store, emptyRoot: Digest, emptyState: Digest, react: (nat, Blob) -> Reaction,
                 ghost good: (Digest, Blob) -> bool, ghost raws: set<Digest>, ghost dbAsks: Asks)
      requires Closed(database, dbAsks, raws) && Good(good, database)
      ensures Valid() && this.database == database && this.raws == raws && this.good == good
      ensures this.emptyRoot == emptyRoot && this.emptyState == emptyState && this.react == react
      ensures batch == map[] && order == [] && requests == map[] && this.dbAsks == dbAsks
    {
      this.emptyRoot, this.emptyState, this.react, this.good := emptyRoot, emptyState, react, good;
      this.database, batch, order, requests, queue := database, map[], [], map[], [];
      this.raws, wanted, issued, refused := raws, {}, {}, {};
      this.dbAsks, doneAsks, asks := dbAsks, map[], map[];
      dbWays, doneWays := map[], map[];
      new;
      hide Consistent, Attentive, LeafHeard, Covered, Keeps, Good, GoodAnswers, Queued, AllLinks, Dangling, Kids,
        Needs;
      EmptyOk(Snap());
      EmptyGood(good, queue, issued);
      CoveredNone(Snap());
      HearNone(Snap());
    }

    /** Starts the download of a trie. */
    static method Start(root: Digest, database: Store, callback: Option<nat>, emptyRoot: Digest, emptyState: Digest,
                        react: (nat, Blob) -> Reaction, ghost good: (Digest, Blob) -> bool, ghost raws: set<Digest>,
                        ghost dbAsks: Asks)
      returns (s: TrieSync, crash: bool)
      requires Closed(database, dbAsks, raws) && Good(good, database)
      ensures fresh(s) && s.Valid() && s.good == good
      ensures !crash && root != emptyRoot ==> root in s.wanted && s.Provided(root, Zero())
    {
      hide Consistent, TrieSync.Attentive, Covered, Keeps, Good, GoodAnswers, Queued, AllLinks, Dangling, Kids, Needs;
      s := new TrieSync(database, emptyRoot, emptyState, react, good, raws, dbAsks);
      crash := s.AddSubTrie(root, 0, Zero(), callback, {});
    }

    /** Takes a batch of answers, up to the first that is not accepted. */
    method Process(results: seq<Item>) returns (committed: bool, index: nat, res: Outcome)
      requires Valid() && forall i :: 0 <= i < |results| ==> good(results[i].hash, results[i].data)
      modifies this`requests, this`queue, this`wanted, this`batch, this`order, this`raws, this`asks, this`doneAsks,
        this`doneWays, this`refused
      ensures !res.Crash? ==> Valid() && old(wanted) <= wanted
      ensures old(order) <= order && (committed <==> order != old(order))
      ensures res.Done? ==> index == 0 && refused == old(refused)
      ensures !res.Done? ==> index < |results|
      ensures !res.Crash? ==> AllTaken(Snap(), if res.Done? then results else results[..index])
      ensures res.NotRequested? || res.AlreadyProcessed? || res.Undecodable? ==>
        res == Verdict(Snap(), results[index]) && refused == old(refused)
      ensures res.Refused? ==> RefusedIs(Snap(), results[index]) && refused == old(refused) + {results[index].hash}
      ensures res.Crash? ==> DecoderFails(results[index])
      ensures Explained(raws - old(raws), results)
    {
      hide Consistent, Attentive, Covered, Keeps, Good, GoodAnswers, Queued, AllLinks, Dangling, Kids, Needs,
        Explained, PrefixesClosed, Retains, Verdict, AllTaken, RefusedIs, DecoderFails, Kept, LeafHeard, Blind;
      committed := false;
      var i := 0;
      NothingYet(Snap(), results);
      while i < |results|
        invariant 0 <= i <= |results| && Valid() && old(wanted) <= wanted && refused == old(refused)
        invariant old(order) <= order && (committed <==> order != old(order))
        invariant AllTaken(Snap(), results[..i]) && Explained(raws - old(raws), results)
      {
        var r, c := TakeNext(results, i, old(raws));
        committed := committed || c;
        if !r.Done? { return committed, i, r; }
        i := i + 1;
      }
      assert results[..i] == results;
      return committed, 0, Done;
    }

    /** Takes the next answer of a batch. */
    method TakeNext(results: seq<Item>, i: nat, ghost raws0: set<Digest>) returns (res: Outcome, committed: bool)
      requires Valid() && i < |results| && good(results[i].hash, results[i].data)
      requires AllTaken(Snap(), results[..i]) && Explained(raws - raws0, results)
      modifies this`requests, this`queue, this`wanted, this`batch, this`order, this`raws, this`asks, this`doneAsks,
        this`doneWays, this`refused
      ensures !res.Crash? ==> Valid() && old(wanted) <= wanted
      ensures old(order) <= order && (committed <==> order != old(order))
      ensures !res.Crash? ==> AllTaken(Snap(), results[..if res.Done? then i + 1 else i])
      ensures res.NotRequested? || res.AlreadyProcessed? || res.Undecodable? ==> res == Verdict(Snap(), results[i])
      ensures res.Refused? ==> RefusedIs(Snap(), results[i])
      ensures refused == old(refused) + if res.Refused? then {results[i].hash} else {}
      ensures res.Crash? ==> DecoderFails(results[i])
      ensures Explained(raws - raws0, results)
    {
      hide Consistent, Attentive, Covered, Keeps, Good, GoodAnswers, Queued, AllLinks, Dangling, Kids, Needs,
        Explained, PrefixesClosed, Retains, Verdict, AllTaken, RefusedIs, DecoderFails, Kept, LeafHeard, Blind;
      ghost var s, blind := Snap(), Blind(results[i]);
      if blind { IsDubious(results[i]); }
      res, committed := ProcessOne(results[i]);
      ExplainNext(s.raws - raws0, raws - raws0, results, i, blind);
      VerdictIs(s, results[i]);
      if res.Crash? { return; }
      TakenStay(s, Snap(), results[..i], if res.Refused? then {results[i].hash} else {});
      if res.Refused? { NowRefused(s, Snap(), results[i]); }
      if res.Done? {
        KeptTaken(results[i], s.requests[results[i].hash].raw, s.requests[results[i].hash].callback);
        TakenNext(Snap(), results, i);
      }
    }

    static ghost predicate AllTaken(s: State, items: seq<Item>) {
      forall i :: 0 <= i < |items| ==> Taken(s, items[i])
    }

    /** Only answers that read as nodes with references were taken without looking at them. */
    static ghost predicate Explained(ds: set<Digest>, results: seq<Item>) {
      forall d :: d in ds ==> exists i :: 0 <= i < |results| && Dubious(results[i], d)
    }

    lemma NothingYet(s: State, results: seq<Item>)
      ensures AllTaken(s, results[..0]) && Explained(s.raws - s.raws, results)
    {}

    lemma ExplainNext(ds: set<Digest>, more: set<Digest>, results: seq<Item>, i: nat, blind: bool)
      requires Explained(ds, results) && i < |results| && more <= ds + (if blind then {results[i].hash} else {})
      requires blind ==> Dubious(results[i], results[i].hash)
      ensures Explained(more, results)
    {
      hide Dubious;
    }

    lemma TakenNext(s: State, results: seq<Item>, i: nat)
      requires i < |results| && AllTaken(s, results[..i]) && Taken(s, results[i])
      ensures AllTaken(s, results[..i + 1])
    {
      hide Taken;
      assert forall j :: 0 <= j < i ==> results[..i + 1][j] == results[..i][j];
    }

    lemma TakenStay(s: State, t: State, items: seq<Item>, gone: set<Digest>)
      requires AllTaken(s, items) && Retains(s, t) && t.refused == s.refused + gone
      requires Consistent(s, multiset{}, {}) && Consistent(t, multiset{}, {})
      requires forall d :: d in gone ==> d in s.requests && s.requests[d].data.None?
      ensures AllTaken(t, items)
    {
      hide Consistent, Taken, Retains;
      forall i | 0 <= i < |items| ensures Taken(t, items[i]) {
        if items[i].hash in gone { NotTaken(s, items[i], items[i].hash); }
        TakenStays(s, t, items[i], gone);
      }
    }

    /** An answer is finished, or it waits for something. */
    static ghost predicate Taken(s: State, item: Item) {
      || (item.hash in s.batch && s.batch[item.hash] == item.data)
      || (Delivered(s.requests, item.hash) && s.requests[item.hash].data.value == item.data
          && s.requests[item.hash].deps > 0 && item.hash !in s.refused)
    }

    /** An answer was taken down and its leaf refused. */
    ghost predicate RefusedIs(s: State, item: Item) {
      && item.hash in s.requests && s.requests[item.hash].data == Some(item.data) && !s.requests[item.hash].raw
      && item.hash in s.refused
      && Verdict(s.(requests := s.requests[item.hash := s.requests[item.hash].(data := None)]), item) == Refused
    }

    /** The decoder fails on the answer or on a stored blob. */
    ghost predicate DecoderFails(item: Item)
      reads this
    {
      || DecodeNode(Some(item.hash), item.data, 0).Panic?
      || exists root :: root in database && DecodeNode(Some(root), database[root], 0).Panic?
    }

    lemma VerdictIs(s: State, item: Item)
      requires s.db == database
      ensures Verdict(s, item).Crash? ==> DecoderFails(item)
      ensures Verdict(s, item).Done? || Verdict(s, item).Refused? ==>
        item.hash in s.requests && s.requests[item.hash].data.None?
    {
      hide DecodeNode, LeafOf;
      var decoded := DecodeNode(Some(item.hash), item.data, 0);
      if Verdict(s, item).Crash? && decoded.Ok? {
        DecodedShape(Some(item.hash), item.data, 0);
        var subs := react(s.requests[item.hash].callback.value, LeafOf(decoded.value).value).subs;
        var i :| 0 <= i < |subs| && Faulty(subs[i], s.db, s.batch);
        assert subs[i].root in database && DecodeNode(Some(subs[i].root), database[subs[i].root], 0).Panic?;
      }
    }

    lemma TakenStays(s: State, t: State, item: Item, gone: set<Digest>)
      requires Taken(s, item) && Retains(s, t) && Consistent(t, multiset{}, {}) && t.refused == s.refused + gone
      requires item.hash !in gone
      ensures Taken(t, item)
    {
      hide Consistent;
      if Delivered(t.requests, item.hash) {
        NotFinished(t, item.hash);
        StillWaits(t, item.hash);
      }
    }

    lemma NotTaken(s: State, item: Item, d: Digest)
      requires Taken(s, item) && Consistent(s, multiset{}, {}) && d in s.requests && s.requests[d].data.None?
      ensures item.hash != d
    {
      hide Consistent;
      NotFinished(s, d);
    }

    lemma KeptTaken(item: Item, raw: bool, callback: Option<nat>)
      requires Kept(item, raw, callback) && Valid()
      ensures Taken(Snap(), item)
    {
      hide Consistent, LeafHeard, Covered;
      if item.hash !in batch { Unrefused(Snap(), item.hash); }
    }

    lemma NowRefused(s: State, t: State, item: Item)
      requires Verdict(s, item) == Refused && item.hash in t.refused && t.db == s.db && t.batch == s.batch
      requires item.hash in s.requests
      requires t.requests == s.requests[item.hash := s.requests[item.hash].(data := Some(item.data))]
      ensures RefusedIs(t, item)
    {
      hide DecodeNode, LeafOf, LeafVerdict;
      var back := t.(requests := t.requests[item.hash := t.requests[item.hash].(data := None)]);
      assert back.requests == s.requests;
    }

    /** The answer for `d` reads as a node with a reference other than to itself. */
    static ghost predicate Dubious(item: Item, d: Digest) {
      item.hash == d && exists c :: c in Kids(d, item.data) && c != d
    }

    lemma IsDubious(item: Item)
      requires Blind(item)
      ensures Dubious(item, item.hash)
    {}

    /** Writes the finished nodes in order. The writer accepts `quota` of them. */
    method Commit(quota: nat) returns (written: nat, ok: bool)
      requires Valid()
      modifies this`database, this`batch, this`order, this`dbAsks, this`doneAsks, this`dbWays, this`doneWays
      ensures Valid()
      ensures ok <==> |old(order)| <= quota
      ensures ok ==> written == |old(order)| && batch == map[] && order == []
      ensures !ok ==> written == quota && batch == old(batch) && order == old(order)
      ensures Overlaid(old(database), old(batch), old(order)[..written], database)
      ensures dbAsks == Flushed(old(dbAsks), old(doneAsks), old(order)[..written])
      ensures dbWays == Flushed(old(dbWays), old(doneWays), old(order)[..written])
      ensures Closed(database, dbAsks, raws)
    {
      hide Consistent, Attentive, LeafHeard, Covered, Keeps, Good, GoodAnswers, Queued, AllLinks, Dangling, Kids,
        Needs, Flushed, Closed, Ordered, Overlaid, Written;
      ghost var s0 := Snap();
      InBatch(s0);
      HearKeys(s0, {});
      written := Write(quota);
      IsOverlaid(s0.db, batch, order[..written]);
      AfterWrite(s0, written);
      if written < |order| { return written, false; }
      AfterAll(s0);
      Clear();
      ok := true;
    }

    /** Wherever writing stops, the downloader is in order. */
    lemma AfterWrite(s: State, n: nat)
      requires Consistent(s, multiset{}, {}) && Attentive(s, {}) && Covered(wanted, s) && n <= |s.order|
      requires (forall d :: d in s.batch <==> d in s.order) && s.doneAsks.Keys == s.batch.Keys
      requires Good(good, s.db) && Good(good, s.batch)
      ensures var t := Written(s, n);
        && Consistent(t, multiset{}, {}) && Attentive(t, {}) && Covered(wanted, t) && Good(good, t.db)
        && Closed(t.db, t.dbAsks, t.raws)
    {
      hide Consistent, Attentive, Covered, Keeps, Good, Flushed, Closed;
      WrittenOk(s, n);
      HearWritten(s, n);
      KeepsWritten(s, Written(s, n), n);
      CoveredKeeps(wanted, s, Written(s, n));
      FlushedGood(good, s.db, s.batch, s.order[..n]);
      InBatch(Written(s, n));
    }

    /** Once all is written, the batch can be cleared. */
    lemma AfterAll(s: State)
      requires Consistent(s, multiset{}, {}) && Attentive(s, {}) && Covered(wanted, s)
      requires (forall d :: d in s.batch <==> d in s.order) && s.doneAsks.Keys == s.batch.Keys
      ensures var t := Written(s, |s.order|).(batch := map[], order := [], doneAsks := map[], doneWays := map[]);
        Consistent(t, multiset{}, {}) && Attentive(t, {}) && Covered(wanted, t) && Good(good, map[])
    {
      hide Consistent, Attentive, Covered, Keeps, Good, Flushed;
      var w := Written(s, |s.order|);
      var t := w.(batch := map[], order := [], doneAsks := map[], doneWays := map[]);
      WrittenAll(s);
      HearWritten(s, |s.order|);
      HearCleared(w);
      KeepsWritten(s, t, |s.order|);
      CoveredKeeps(wanted, s, t);
      EmptyGood(good, [], {});
    }

    method Clear()
      modifies this`batch, this`order, this`doneAsks, this`doneWays
      ensures Snap() == old(Snap()).(batch := map[], order := [], doneAsks := map[], doneWays := map[])
    {
      batch, order := map[], [];
      doneAsks, doneWays := map[], map[];
    }

    method Write(quota: nat) returns (i: nat)
      requires Closed(database, dbAsks, raws) && Ordered(database, batch, order, doneAsks, raws)
      requires (forall d :: d in batch <==> d in order) && doneAsks.Keys == batch.Keys
      requires doneWays.Keys == batch.Keys
      modifies this`database, this`dbAsks, this`dbWays
      ensures i == (if quota <= |order| then quota else |order|) && Snap() == Written(old(Snap()), i)
      ensures database == Flushed(old(database), batch, order[..i])
      ensures dbAsks == Flushed(old(dbAsks), doneAsks, order[..i])
      ensures dbWays == Flushed(old(dbWays), doneWays, order[..i])
      ensures Closed(database, dbAsks, raws)
    {
      hide Kids, Needs, Flushed, Closed, Ordered;
      i := 0;
      FlushedNone(database, batch, order);
      FlushedNone(dbAsks, doneAsks, order);
      FlushedNone(dbWays, doneWays, order);
      while i < |order| && i < quota
        invariant 0 <= i <= |order| && i <= quota
        invariant database == Flushed(old(database), batch, order[..i])
        invariant dbAsks == Flushed(old(dbAsks), doneAsks, order[..i])
        invariant dbWays == Flushed(old(dbWays), doneWays, order[..i])
        invariant Closed(database, dbAsks, raws)
      {
        FlushClosed(old(database), batch, order, old(dbAsks), doneAsks, raws, i + 1);
        FlushedStep(old(database), batch, order, i);
        FlushedStep(old(dbAsks), doneAsks, order, i);
        FlushedStep(old(dbWays), doneWays, order, i);
        database := database[order[i] := batch[order[i]]];
        dbAsks := dbAsks[order[i] := doneAsks[order[i]]];
        dbWays := dbWays[order[i] := doneWays[order[i]]];
        i := i + 1;
      }
    }

    /** Hands out up to `max` hashes to retrieve (all if it is zero), deepest first. */
    method Missing(max: nat) returns (out: seq<Digest>)
      requires Valid()
      modifies this`queue, this`issued
      ensures Valid() && issued == old(issued) + set d | d in out
      ensures max == 0 ==> queue == []
      ensures max > 0 ==> |out| == if max <= |old(queue)| then max else |old(queue)|
      ensures exists taken: seq<(Digest, int)> :: Handed(old(queue), queue, taken, out)
    {
      hide Consistent, Attentive, LeafHeard, Covered, Keeps, Good, GoodAnswers, Queued, AllLinks, Dangling, Kids,
        Needs, Handed;
      out := [];
      HandNone(queue);
      ghost var taken: seq<(Digest, int)> := [];
      while queue != [] && (max == 0 || |out| < max)
        invariant Valid() && issued == old(issued) + set d | d in out
        invariant max > 0 ==> |out| <= max
        invariant Handed(old(queue), queue, taken, out) && |out| + |queue| == |old(queue)|
        decreases |queue|
      {
        var k := Deepest(queue);
        QueuedPop(requests, queue, issued, k);
        HandNext(old(queue), queue, taken, out, k);
        out := out + [queue[k].0];
        taken := taken + [queue[k]];
        issued := issued + {queue[k].0};
        queue := queue[..k] + queue[k + 1..];
      }
    }

    function Pending(): nat
      reads this
    {
      |requests|
    }
  }

  // --- which answers endanger the store ---

  lemma WidenedAsks(x: Asks, y: Asks, c: Digest, ps: seq<Digest>)
    requires AsksFor(x, y, c, ps)
    ensures forall d :: AskedBy(x, d) <= AskedBy(y, d)
  {}

  lemma NowNeeded(x: Asks, p: Digest, c: Digest, data: Blob)
    requires p != Zero()
    ensures c in Needs(p, data, Noted(x, p, c))
  {
    hide Kids;
  }

  lemma OwnNeed(d: Digest, data: Blob, x: Asks, c: Digest)
    requires c in Kids(d, data)
    ensures c in Needs(d, data, x)
  {
    hide Kids;
  }

  /** A raw answer is blind exactly when it would leave a need open. */
  lemma BlindIs(s: State, d: Digest, data: Blob)
    requires AskedBy(s.asks, d) == {}
    ensures Dangling(s.db, s.batch, d, data, s.asks) <==>
      exists c :: c in Kids(d, data) && c != d && !Here(s.db, s.batch, c)
  {
    hide Kids;
  }

  /** Without raw entries every prefix can be flushed. */
  lemma FlushNow(s: State)
    requires Consistent(s, multiset{}, {})
    ensures s.raws == {} ==> PrefixesClosed(s)
  {
    hide Kids, Closed, Counted, Alive, Served, Waiting, Quiet, PrefixesClosed;
    if s.raws == {} { PrefixesClosedIff(s); }
  }

  /** Once a raw answer refers to something absent, some prefix cannot. */
  lemma BlindFlush(s: State, t: State, d: Digest, c: Digest)
    requires Consistent(s, multiset{}, {}) && s.raws == {} && t.db == s.db && t.dbAsks == s.dbAsks
    requires s.order < t.order && t.order[|s.order|] == d && d in t.batch && t.doneAsks.Keys == t.batch.Keys
    requires c in Kids(d, t.batch[d]) && c != d && !Here(s.db, s.batch, c)
    requires forall e :: e in t.batch <==> e in t.order
    ensures !PrefixesClosed(t)
  {
    hide Kids, Closed, Counted, Alive, Served, Waiting, Quiet, PrefixesClosed;
    PrefixesClosedIff(t);
    var n := |s.order|;
    assert c in Needs(t.order[n], t.batch[t.order[n]], t.doneAsks);
    assert t.order[..n + 1] == s.order + [d];
  }

  /** An answer to a raw request that reads as a reference to `c`: once it is flushed, the store
      holds a node and not what the node refers to. */
  method RawAnswerDangles(c: Digest, d: Digest, emptyRoot: Digest, emptyState: Digest, react: (nat, Blob) -> Reaction)
    returns (s: TrieSync)
    requires c != d && d != emptyState
    ensures s.Valid() && d in s.database && c in Kids(d, s.database[d]) && c !in s.database
  {
    hide Consistent, TrieSync.Attentive, Covered, Keeps, Queued, Kids, Needs, DecodeNode, PrefixesClosed, Link,
      Good, GoodAnswers, Closed;
    s := TakeLink(c, d, emptyRoot, emptyState, react);
    ghost var batch, keys := s.batch, s.order[..1];
    assert keys == [d];
    var n, ok := s.Commit(1);
    assert n == 1;
  }

  method TakeLink(c: Digest, d: Digest, emptyRoot: Digest, emptyState: Digest, react: (nat, Blob) -> Reaction)
    returns (s: TrieSync)
    requires c != d && d != emptyState
    ensures fresh(s) && s.Valid() && !s.SafeToFlush()
    ensures s.database == map[] && d in s.batch && c in Kids(d, s.batch[d]) && s.order != [] && s.order[0] == d
  {
    hide Consistent, TrieSync.Attentive, Covered, Keeps, Queued, Kids, Needs, DecodeNode, PrefixesClosed, Link,
      Grown, Good, GoodAnswers;
    EmptyClosed();
    s := new TrieSync(map[], emptyRoot, emptyState, react, (_, _) => true, {}, map[]);
    s.AddRawEntry(d, 0, Zero(), {});
    LinkKids(d, c);
    assert s.Blind(Item(d, Link(c)));
    s.TakeRaw(Item(d, Link(c)));
  }

  lemma EmptyClosed()
    ensures Closed(map[], map[], {}) && Good((_, _) => true, map[])
  {}

  lemma LinkKids(d: Digest, c: Digest)
    ensures c in Kids(d, Link(c))
  {
    hide DecodeNode, Link;
    DecodeLink(Some(d), c, 0);
    KidsOf(d, Link(c));
  }

  // --- what has been downloaded ---

  lemma ClosedRefs(db: Store, x: Asks, raws: set<Digest>)
    requires Closed(db, x, raws)
    ensures RefsStored(db, raws)
  {
    hide Kids;
    forall d, c | d in db && d !in raws && c in Kids(d, db[d]) ensures c in db { OwnNeed(d, db[d], x, c); }
  }

  /** A stored root opens a complete trie at any time. */
  lemma StoredRootComplete(s: TrieSync, h: Hasher, u: iset<Blob>, t: Tree)
    requires s.Valid() && Universe(h, u) && forall d, b :: s.good(d, b) ==> b in u && h(b) == d
    requires Canon(t) && Inner(t) && Within(h, u, t) && h(Enc(h, t)) in s.database
    requires Untainted(h, t, s.raws) && h(Enc(h, t)) !in s.raws
    ensures StoredTop(h, s.database, t)
  {
    hide Enc, Kids, Ordered, Counted, Alive, Waiting, Queued, Untainted, Served, Closed, Quiet, Needs;
    ClosedRefs(s.database, s.dbAsks, s.raws);
    ClosedHoldsTree(h, u, s.database, s.raws, t);
  }

  /** Once nothing is pending and the batch is written, a wanted trie can be opened from the
      store and no node of it is missing. */
  lemma SyncComplete(s: TrieSync, h: Hasher, u: iset<Blob>, t: Tree)
    requires s.Valid() && s.Pending() == 0 && s.batch == map[] && Universe(h, u)
    requires forall d, b :: s.good(d, b) ==> b in u && h(b) == d
    requires Canon(t) && Inner(t) && Within(h, u, t) && h(Enc(h, t)) in s.wanted
    requires Untainted(h, t, s.raws) && h(Enc(h, t)) !in s.raws
    ensures StoredTop(h, s.database, t)
  {
    hide Enc, Kids, Ordered, Counted, Alive, Waiting, Queued, Untainted, Served, Closed, Quiet, Needs;
    assert s.requests == map[];
    StoredRootComplete(s, h, u, t);
  }

  /** What the leaf of a stored node asked for is stored; a trie it asked for is complete. */
  lemma AskedComplete(s: TrieSync, h: Hasher, u: iset<Blob>, d: Digest, c: Digest, t: Tree)
    requires s.Valid() && Universe(h, u) && forall e, b :: s.good(e, b) ==> b in u && h(b) == e
    requires d in s.database && d !in s.raws && c in AskedBy(s.dbAsks, d)
    ensures c in s.database
    ensures Canon(t) && Inner(t) && Within(h, u, t) && h(Enc(h, t)) == c && Untainted(h, t, s.raws) && c !in s.raws ==>
      StoredTop(h, s.database, t)
  {
    hide Enc, Kids, Ordered, Counted, Alive, Waiting, Queued, Untainted, Served, Quiet;
    assert c in Needs(d, s.database[d], s.dbAsks);
    if Canon(t) && Inner(t) && Within(h, u, t) && h(Enc(h, t)) == c && Untainted(h, t, s.raws) && c !in s.raws {
      StoredRootComplete(s, h, u, t);
    }
  }

  // --- leaves ---

  /** The value that a node holds itself. */
  function OwnLeaf(t: Tree): Option<Blob> {
    match t
    case Ext(_, Leaf(v)) => Some(v)
    case Branch(kids) => if |kids| == 17 && kids[16].Leaf? then Some(kids[16].value) else None
    case _ => None
  }

  /** Of a stored node exactly this value is shown to the callback. A leaf embedded in its parent
      is not shown: the parent does not hold its value itself. */
  lemma OwnLeafShown(h: Hasher, t: Tree, d: Digest)
    requires Canon(t) && Inner(t) && |Enc(h, t)| < TWO64
    ensures var n := DecodeNode(Some(d), Enc(h, t), 0);
      n.Ok? && OneLeaf(n.value) && LeafOf(n.value) == OwnLeaf(t)
  {
    hide Enc, DecodeNode, Loaded, Canon;
    DecodeStored(h, t, Some(d), 0, []);
    assert Enc(h, t) + [] == Enc(h, t);
    DecodedShape(Some(d), Enc(h, t), 0);
    LoadedLeaf(h, t, Some(d));
  }

  lemma LoadedLeaf(h: Hasher, t: Tree, d: Option<Digest>)
    requires Inner(t) && OneLeaf(Loaded(h, t, d, 0))
    ensures LeafOf(Loaded(h, t, d, 0)) == OwnLeaf(t)
  {
    hide Enc;
    if t.Branch? {
      var n := Loaded(h, t, d, 0);
      RefValue(h, t.kids[16]);
      assert n.children[16] == LoadedRef(h, t.kids[16], 0);
    } else {
      RefValue(h, t.sub);
    }
  }

  lemma RefValue(h: Hasher, t: Tree)
    ensures LoadedRef(h, t, 0).Value? <==> t.Leaf?
    ensures t.Leaf? ==> LoadedRef(h, t, 0) == Value(t.value)
  {
    hide Enc;
  }

  /** Every node of the tree that is stored by itself was taken under callback `cb`. */
  ghost predicate TakenUnder(h: Hasher, t: Tree, ways: Ways, cb: nat, top: bool)
    decreases t
  {
    && (Inner(t) && (top || Hashed(h, t)) ==>
          var d := h(Enc(h, t)); d != Zero() && d in ways && ways[d] == Under(Some(cb)))
    && match t
       case Ext(_, sub) => TakenUnder(h, sub, ways, cb, false)
       case Branch(kids) => forall i :: 0 <= i < |kids| ==> TakenUnder(h, kids[i], ways, cb, false)
       case _ => true
  }

  /** All that `cb` asks for on the values that such nodes hold is stored. */
  ghost predicate LeavesServed(s: TrieSync, h: Hasher, t: Tree, cb: nat, top: bool)
    reads s
    decreases t
  {
    && (Inner(t) && (top || Hashed(h, t)) ==> s.AllIn(s.LeafSubs(Some(cb), OwnLeaf(t)), s.database.Keys))
    && match t
       case Ext(_, sub) => LeavesServed(s, h, sub, cb, false)
       case Branch(kids) => forall i :: 0 <= i < |kids| ==> LeavesServed(s, h, kids[i], cb, false)
       case _ => true
  }

  /** A trie that is stored and was taken under one callback has all that the callback asks for on
      its leaves stored with it. */
  lemma {:induction false} CallbackServed(s: TrieSync, h: Hasher, u: iset<Blob>, t: Tree, cb: nat, top: bool)
    requires s.Valid() && Universe(h, u) && forall d, b :: s.good(d, b) ==> b in u && h(b) == d
    requires (Canon(t) || LeafOk(t)) && Within(h, u, t) && Untainted(h, t, s.raws)
    requires top ==> Canon(t) && Inner(t) && h(Enc(h, t)) in s.database && h(Enc(h, t)) !in s.raws
    requires Hashed(h, t) ==> h(Enc(h, t)) in s.database
    requires !top && !Hashed(h, t) ==> Stored(h, s.database, t)
    requires TakenUnder(h, t, s.dbWays, cb, top)
    ensures LeavesServed(s, h, t, cb, top)
    decreases t
  {
    hide Enc, Kids, Consistent, TrieSync.Attentive, Queued, Covered, Canon, Closed, RefsStored, StoredSubs;
    if Inner(t) {
      InnerCanon(t);
      if top || Hashed(h, t) {
        StoredRootComplete(s, h, u, t);
        NodeServed(s, h, u, t, cb);
      }
      BelowStored(h, s.database, t, top || Hashed(h, t));
      CanonBelow(t);
      match t
      case Ext(_, sub) => CallbackServed(s, h, u, sub, cb, false);
      case Branch(kids) =>
        forall i | 0 <= i < |kids| ensures LeavesServed(s, h, kids[i], cb, false) {
          CallbackServed(s, h, u, kids[i], cb, false);
        }
    }
  }

  lemma InnerCanon(t: Tree)
    requires Inner(t) && (Canon(t) || LeafOk(t))
    ensures Canon(t)
  {}

  /** What is below a stored node is stored. */
  lemma BelowStored(h: Hasher, db: Store, t: Tree, own: bool)
    requires Inner(t) && (own ==> StoredTop(h, db, t)) && (!own ==> !Hashed(h, t) && Stored(h, db, t))
    ensures t.Ext? ==> Stored(h, db, t.sub)
    ensures t.Branch? ==> forall i :: 0 <= i < |t.kids| ==> Stored(h, db, t.kids[i])
  {
    hide Enc;
  }

  lemma NodeServed(s: TrieSync, h: Hasher, u: iset<Blob>, t: Tree, cb: nat)
    requires s.Valid() && Universe(h, u) && forall d, b :: s.good(d, b) ==> b in u && h(b) == d
    requires Canon(t) && Inner(t) && Within(h, u, t) && h(Enc(h, t)) in s.database && h(Enc(h, t)) !in s.raws
    requires var d := h(Enc(h, t)); d != Zero() && d in s.dbWays && s.dbWays[d] == Under(Some(cb))
    ensures s.AllIn(s.LeafSubs(Some(cb), OwnLeaf(t)), s.database.Keys)
  {
    hide Enc, Kids, Consistent, Queued, Covered, Canon, Within, Closed, LeafOf, DecodeNode;
    var d := h(Enc(h, t));
    Fetched(h, u, s.database, t);
    OwnLeafShown(h, t, d);
    var asked := AskedBy(s.dbAsks, d);
    assert s.LeafHeard(Some(cb), d, s.database[d], asked);
    InBatch(s.Snap());
    AskedStored(s.database, s.dbAsks, s.raws, d);
    var subs := s.LeafSubs(Some(cb), OwnLeaf(t));
    assert s.AllIn(subs, asked);
    s.AllInMore(subs, asked, s.database.Keys);
  }

  lemma AskedStored(db: Store, x: Asks, raws: set<Digest>, d: Digest)
    requires Closed(db, x, raws) && d in db && d !in raws
    ensures AskedBy(x, d) <= db.Keys
  {
    hide Kids;
    forall c | c in AskedBy(x, d) ensures c in db { assert c in Needs(d, db[d], x); }
  }

  /** When every request has been answered and no leaf refused, and needs go down in some
      measure, nothing is pending. */
  lemma SyncDrains(s: TrieSync, rank: Digest -> nat)
    requires s.Valid() && s.refused == {} && (forall d :: d in s.requests ==> Delivered(s.requests, d))
    requires forall d, c :: Delivered(s.requests, d) && c in Needs(d, s.requests[d].data.value, s.asks) ==>
      rank(c) < rank(d)
    ensures s.Pending() == 0
  {
    hide Kids, Closed, Ordered, Counted, Alive, Served, Waiting, Quiet, Needs;
    forall d | d in s.requests ensures false { Drained(s.Snap(), rank, d); }
    assert s.requests == map[];
  }
}
