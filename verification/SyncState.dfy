/** The state of the trie downloader (fast/sync.go) as a value: requests and their links, finished
    nodes, the store, and what every step keeps. */
module SyncState {
  import opened Bytes
  import opened Memory
  import opened Bags
  import opened Closure

  /** An outstanding node. `parents` are the hashes of the requests waiting for it, `deps` is
      the number of answers it waits for itself, `callback` names a leaf callback. */
  datatype Request = Request(data: Option<Blob>, raw: bool, parents: seq<Digest>, depth: int, deps: int,
                             callback: Option<nat>)

  type Requests = map<Digest, Request>

  // --- links ---

  /** All parent links of the outstanding requests. */
  ghost function AllLinks(m: Requests): multiset<Digest> { Total(ParentBags(m)) }

  ghost function ParentBags(m: Requests): map<Digest, multiset<Digest>> { map d | d in m :: multiset(m[d].parents) }

  lemma LinksPick(m: Requests, d: Digest)
    requires d in m
    ensures AllLinks(m) == multiset(m[d].parents) + AllLinks(m - {d})
  {
    TotalPick(ParentBags(m), d);
    assert ParentBags(m) - {d} == ParentBags(m - {d});
  }

  lemma LinksPut(m: Requests, d: Digest, r: Request)
    ensures AllLinks(m[d := r]) == multiset(r.parents) + AllLinks(m - {d})
  {
    LinksPick(m[d := r], d);
    assert m[d := r] - {d} == m - {d};
  }

  /** A request's links depend on its parents only. */
  lemma LinksKeep(m: Requests, d: Digest, r: Request)
    requires d in m && r.parents == m[d].parents
    ensures AllLinks(m[d := r]) == AllLinks(m)
  {
    LinksPut(m, d, r);
    LinksPick(m, d);
  }

  lemma LinksAdd(m: Requests, d: Digest, r: Request, ps: seq<Digest>)
    requires d in m ==> r.parents == m[d].parents + ps
    requires d !in m ==> r.parents == ps
    ensures AllLinks(m[d := r]) == AllLinks(m) + multiset(ps)
  {
    LinksPut(m, d, r);
    if d in m { LinksPick(m, d); } else { assert m - {d} == m; }
  }

  lemma LinksIn(m: Requests, c: Digest, p: Digest)
    requires c in m && p in m[c].parents
    ensures AllLinks(m)[p] > 0
  {
    LinksPick(m, c);
  }

  lemma LinksNone(m: Requests, p: Digest)
    requires forall c :: c in m ==> p !in m[c].parents
    ensures AllLinks(m)[p] == 0
  {
    TotalNone(ParentBags(m), p);
  }

  /** A link shows in the parents of some request. */
  lemma LinksOf(m: Requests, p: Digest) returns (c: Digest)
    requires AllLinks(m)[p] > 0
    ensures c in m && p in m[c].parents
  {
    if forall c :: c in m ==> p !in m[c].parents { LinksNone(m, p); }
    c :| c in m && p in m[c].parents;
  }

  // --- what a node needs ---

  /** What leaf callbacks asked for on behalf of a node, by the hash of the node. */
  type Asks = map<Digest, set<Digest>>

  function AskedBy(x: Asks, d: Digest): set<Digest> { if d in x then x[d] else {} }

  /** What a node needs: its own references and what its leaf asked for. */
  function Needs(d: Digest, blob: Blob, x: Asks): set<Digest> { Kids(d, blob) + AskedBy(x, d) }

  predicate Here(db: Store, batch: Store, c: Digest) { c in db || c in batch }

  /** Something a node needs, other than itself, is absent. */
  ghost predicate Dangling(db: Store, batch: Store, d: Digest, data: Blob, x: Asks) {
    exists c :: c in Needs(d, data, x) && c != d && !Here(db, batch, c)
  }

  predicate Delivered(m: Requests, d: Digest) { d in m && m[d].data.Some? }

  /** Everything a stored node needs is stored too; `raws` are the hashes whose content was taken
      without looking at it although it refers to something absent. */
  ghost predicate Closed(db: Store, x: Asks, raws: set<Digest>) {
    forall d, c :: d in db && d !in raws && c in Needs(d, db[d], x) ==> c in db
  }

  /** The finished nodes come after what they need. */
  ghost predicate Ordered(db: Store, batch: Store, order: seq<Digest>, x: Asks, raws: set<Digest>) {
    && (forall d :: d in batch <==> d in order) && x.Keys == batch.Keys
    && (forall i, c ::
          (0 <= i < |order| && order[i] in batch && order[i] !in raws && c in Needs(order[i], batch[order[i]], x)) ==>
          c in db || c in order[..i + 1])
  }

  ghost predicate Apart(batch: Store, m: Requests) { forall d :: d in m ==> d !in batch }

  /** A request waits for as many answers as there are links to it, and `owed` ones for
      which the link is gone already (or not made yet). */
  ghost predicate Counted(m: Requests, owed: multiset<Digest>) {
    forall p :: p in m ==> m[p].deps == AllLinks(m)[p] + owed[p]
  }

  /** Only answered requests wait, for what they need, and these are not raw. */
  ghost predicate Alive(m: Requests, x: Asks, owed: multiset<Digest>) {
    && (forall p :: p in owed ==> Delivered(m, p))
    && LinksNeeded(m, x)
    && (forall p :: Delivered(m, p) ==> !m[p].raw)
    && (forall p :: p in x ==> Delivered(m, p))
  }

  ghost predicate LinksNeeded(m: Requests, x: Asks) {
    forall c, p :: c in m && p in m[c].parents ==> Delivered(m, p) && c in Needs(p, m[p].data.value, x)
  }

  /** What is missing among `cs` is requested on behalf of `p`. */
  ghost predicate Linked(db: Store, batch: Store, m: Requests, p: Digest, cs: set<Digest>) {
    forall c :: c in cs ==> Here(db, batch, c) || (c in m && p in m[c].parents)
  }

  /** What a callback asked for is present or requested. */
  ghost predicate Served(db: Store, batch: Store, m: Requests, x: Asks) {
    forall p :: p in x ==> Linked(db, batch, m, p, x[p])
  }

  /** An answered request waits for something, and for everything of its own that is missing. */
  ghost predicate Waiting(db: Store, batch: Store, m: Requests, skip: set<Digest>) {
    forall p :: Delivered(m, p) && p !in skip ==>
      m[p].deps > 0 && Linked(db, batch, m, p, Kids(p, m[p].data.value))
  }

  /** Refused nodes stay behind and wait for nothing. */
  ghost predicate Quiet(m: Requests, refused: set<Digest>) {
    forall p :: p in refused ==> Delivered(m, p) && m[p].deps == 0
  }

  // --- how each change of the requests keeps it ---

  /** Nothing waits for a request that has not been answered. */
  lemma NoLinks(m: Requests, x: Asks, owed: multiset<Digest>, d: Digest)
    requires Alive(m, x, owed) && !Delivered(m, d)
    ensures AllLinks(m)[d] == 0 && owed[d] == 0 && AskedBy(x, d) == {}
  {
    hide Needs;
    LinksNone(m, d);
  }

  lemma Unlinked(m: Requests, d: Digest)
    requires AllLinks(m)[d] == 0
    ensures forall c :: c in m ==> d !in m[c].parents
  {
    forall c | c in m ensures d !in m[c].parents {
      if d in m[c].parents { LinksIn(m, c, d); }
    }
  }

  /** Once nothing is owed to a node, all it needs is present. */
  lemma Satisfied(db: Store, batch: Store, m: Requests, x: Asks, p: Digest)
    requires Delivered(m, p) && Linked(db, batch, m, p, Kids(p, m[p].data.value)) && Served(db, batch, m, x)
    requires AllLinks(m)[p] == 0
    ensures !Dangling(db, batch, p, m[p].data.value, x)
  {
    hide Kids;
    Unlinked(m, p);
    assert p in x ==> Linked(db, batch, m, p, x[p]);
  }

  lemma FinishOrdered(db: Store, batch: Store, order: seq<Digest>, x: Asks, raws: set<Digest>, d: Digest, data: Blob,
                      y: Asks, raws': set<Digest>)
    requires Ordered(db, batch, order, x, raws) && d !in batch && raws <= raws'
    requires d in raws' || !Dangling(db, batch, d, data, y)
    ensures Ordered(db, batch[d := data], order + [d], x[d := AskedBy(y, d)], raws')
  {
    hide Kids;
    var b, o, x' := batch[d := data], order + [d], x[d := AskedBy(y, d)];
    forall i, c | 0 <= i < |o| && o[i] in b && o[i] !in raws' && c in Needs(o[i], b[o[i]], x')
      ensures c in db || c in o[..i + 1]
    {
      if i < |order| {
        assert o[i] == order[i] && o[..i + 1] == order[..i + 1];
        assert order[i] in batch && order[i] != d;
        assert c in Needs(order[i], batch[order[i]], x);
      } else {
        assert o[..i + 1] == order + [d];
        assert c in Needs(d, data, y);
      }
    }
  }

  lemma FinishAlive(m: Requests, x: Asks, owed: multiset<Digest>, d: Digest)
    requires Alive(m, x, owed) && d in m && AllLinks(m)[d] == 0 && owed[d] == 0
    ensures Alive(m - {d}, x - {d}, owed + multiset(m[d].parents))
  {
    hide Kids, Needs, LinksNeeded, AllLinks;
    FinishNeeded(m, x, d);
    var m' := m - {d};
    assert forall p :: p in m[d].parents ==> Delivered(m, p) by { ParentsLive(m, x, d); }
    forall p | Delivered(m, p) && p != d ensures Delivered(m', p) {}
    forall p | Delivered(m', p) ensures !m'[p].raw { assert Delivered(m, p); }
    assert d !in m[d].parents by { Unlinked(m, d); }
  }

  lemma ParentsLive(m: Requests, x: Asks, d: Digest)
    requires LinksNeeded(m, x) && d in m
    ensures forall p :: p in m[d].parents ==> Delivered(m, p)
  {}

  lemma FinishNeeded(m: Requests, x: Asks, d: Digest)
    requires LinksNeeded(m, x) && AllLinks(m)[d] == 0
    ensures LinksNeeded(m - {d}, x - {d})
  {
    hide Kids, AllLinks;
    Unlinked(m, d);
    var m', x' := m - {d}, x - {d};
    forall c, p | c in m' && p in m'[c].parents ensures Delivered(m', p) && c in Needs(p, m'[p].data.value, x') {
      assert c in m && m'[c] == m[c];
      assert Delivered(m, p) && c in Needs(p, m[p].data.value, x);
      assert p != d && m'[p] == m[p] && AskedBy(x', p) == AskedBy(x, p);
    }
  }

  /** What is linked stays linked while requests gain parents or become present. */
  lemma LinkedKeeps(db: Store, batch: Store, m: Requests, batch': Store, m': Requests, p: Digest, cs: set<Digest>)
    requires Linked(db, batch, m, p, cs) && batch.Keys <= batch'.Keys && Carried(m, m', batch')
    ensures Linked(db, batch', m', p, cs)
  {}

  /** Every request is still there with its parents, or present. */
  ghost predicate Carried(m: Requests, m': Requests, batch': Store) {
    forall c :: c in m ==> c in batch' || (c in m' && forall p :: p in m[c].parents ==> p in m'[c].parents)
  }

  lemma WaitingKeeps(db: Store, batch: Store, m: Requests, skip: set<Digest>, batch': Store, m': Requests,
                     skip': set<Digest>)
    requires Waiting(db, batch, m, skip) && batch.Keys <= batch'.Keys && Carried(m, m', batch')
    requires forall q :: Delivered(m', q) && q !in skip' ==>
      Delivered(m, q) && q !in skip && m'[q].deps > 0 && m'[q].data == m[q].data
    ensures Waiting(db, batch', m', skip')
  {
    hide Kids, Carried, Linked;
    forall q | Delivered(m', q) && q !in skip'
      ensures m'[q].deps > 0 && Linked(db, batch', m', q, Kids(q, m'[q].data.value))
    {
      LinkedKeeps(db, batch, m, batch', m', q, Kids(q, m[q].data.value));
    }
  }

  lemma ServedKeeps(db: Store, batch: Store, m: Requests, x: Asks, batch': Store, m': Requests, x': Asks)
    requires Served(db, batch, m, x) && batch.Keys <= batch'.Keys && Carried(m, m', batch')
    requires forall p :: p in x' ==> p in x && x'[p] == x[p]
    ensures Served(db, batch', m', x')
  {
    hide Carried, Linked;
    forall p | p in x' ensures Linked(db, batch', m', p, x'[p]) {
      LinkedKeeps(db, batch, m, batch', m', p, x[p]);
    }
  }

  lemma FinishCounted(m: Requests, owed: multiset<Digest>, d: Digest)
    requires Counted(m, owed) && d in m
    ensures Counted(m - {d}, owed + multiset(m[d].parents))
  {
    LinksPick(m, d);
  }

  /** A request changes, but not its parents. */
  lemma Recount(m: Requests, owed: multiset<Digest>, p: Digest, r: Request, owed': multiset<Digest>)
    requires Counted(m, owed) && p in m && r.parents == m[p].parents
    requires r.deps + owed[p] == m[p].deps + owed'[p] && forall q :: q != p ==> owed'[q] == owed[q]
    ensures Counted(m[p := r], owed')
  {
    LinksKeep(m, p, r);
  }

  lemma RecountAlive(m: Requests, x: Asks, owed: multiset<Digest>, p: Digest, r: Request, owed': multiset<Digest>)
    requires Alive(m, x, owed) && p in m && r.parents == m[p].parents && r.raw == m[p].raw
    requires Delivered(m, p) ==> r.data == m[p].data
    requires !Delivered(m, p) ==> !r.raw
    requires forall q :: q in owed' ==> Delivered(m, q)
    ensures Alive(m[p := r], x, owed')
  {
    hide Needs;
    assert forall q :: Delivered(m, q) ==> Delivered(m[p := r], q) && m[p := r][q].data == m[q].data;
  }

  /** What scheduling leaves behind: a new request, or an old one with more parents. */
  function Scheduled(m: Requests, c: Digest, r: Request): Requests {
    if c in m then m[c := m[c].(parents := m[c].parents + r.parents)] else m[c := r]
  }

  lemma ScheduleCounted(m: Requests, owed: multiset<Digest>, c: Digest, r: Request)
    requires Counted(m, owed + multiset(r.parents)) && r.deps == 0
    requires c !in m ==> AllLinks(m)[c] == 0 && (owed + multiset(r.parents))[c] == 0
    ensures Counted(Scheduled(m, c, r), owed)
  {
    LinksAdd(m, c, Scheduled(m, c, r)[c], r.parents);
  }

  lemma ScheduleAlive(m: Requests, x: Asks, owed: multiset<Digest>, c: Digest, r: Request, x': Asks)
    requires Alive(m, x, owed + multiset(r.parents)) && r.data.None? && Widened(x, x')
    requires forall p :: p in x' ==> p in x || p in r.parents
    requires forall p :: p in r.parents && Delivered(m, p) ==> c in Needs(p, m[p].data.value, x')
    ensures Alive(Scheduled(m, c, r), x', owed)
  {
    hide Kids, Needs, LinksNeeded, AllLinks, Widened;
    var t := Scheduled(m, c, r);
    forall p | p in r.parents ensures Delivered(m, p) { assert p in owed + multiset(r.parents); }
    forall q | Delivered(m, q) ensures Delivered(t, q) && !t[q].raw {}
    forall q | Delivered(t, q) ensures Delivered(m, q) {}
    forall q | q in owed ensures Delivered(m, q) { assert q in owed + multiset(r.parents); }
    ScheduleNeeded(m, x, c, r, x');
  }

  lemma ScheduleNeeded(m: Requests, x: Asks, c: Digest, r: Request, x': Asks)
    requires LinksNeeded(m, x) && r.data.None? && Widened(x, x')
    requires forall p :: p in r.parents ==> Delivered(m, p) && c in Needs(p, m[p].data.value, x')
    ensures LinksNeeded(Scheduled(m, c, r), x')
  {
    hide Kids, AllLinks;
    var t := Scheduled(m, c, r);
    forall e, p | e in t && p in t[e].parents ensures Delivered(t, p) && e in Needs(p, t[p].data.value, x') {
      if e in m && p in m[e].parents {
        assert Delivered(m, p) && e in Needs(p, m[p].data.value, x);
      } else {
        assert e == c && p in r.parents;
      }
      assert t[p].data == m[p].data;
    }
  }

  /** Nothing that was asked for is forgotten. */
  ghost predicate Widened(x: Asks, x': Asks) { forall p :: p in x ==> p in x' && x[p] <= x'[p] }

  // --- the invariant ---

  /** How an answer was taken: without looking at it, or as a node under some callback or none. */
  datatype Way = Unread | Under(callback: Option<nat>)

  type Ways = map<Digest, Way>

  function WayOf(r: Request): Way { if r.raw then Unread else Under(r.callback) }

  /** `asks`, `doneAsks` and `dbAsks` hold what callbacks asked for on behalf of outstanding,
      finished and stored nodes; `refused` are the nodes whose leaf was refused. */
  datatype State = State(db: Store, batch: Store, order: seq<Digest>, requests: Requests, raws: set<Digest>,
                         dbAsks: Asks, doneAsks: Asks, asks: Asks, refused: set<Digest>, dbWays: Ways, doneWays: Ways)

  /** `owed` are the answers still to be booked, `open` the node being taken apart. */
  ghost predicate Consistent(s: State, owed: multiset<Digest>, open: set<Digest>) {
    && Closed(s.db, s.dbAsks, s.raws) && Ordered(s.db, s.batch, s.order, s.doneAsks, s.raws)
    && Apart(s.batch, s.requests) && Counted(s.requests, owed) && Alive(s.requests, s.asks, owed)
    && Served(s.db, s.batch, s.requests, s.asks) && Waiting(s.db, s.batch, s.requests, open + s.refused)
    && Quiet(s.requests, s.refused)
  }

  lemma ClosedMore(db: Store, x: Asks, raws: set<Digest>, raws': set<Digest>)
    requires Closed(db, x, raws) && raws <= raws'
    ensures Closed(db, x, raws')
  {}

  /** The state after finishing `d`; `raws` may grow by it. */
  ghost function Finished(s: State, d: Digest, data: Blob, raws: set<Digest>): State
    requires d in s.requests
  {
    s.(batch := s.batch[d := data], order := s.order + [d], requests := s.requests - {d}, raws := raws,
       doneAsks := s.doneAsks[d := AskedBy(s.asks, d)], asks := s.asks - {d},
       doneWays := s.doneWays[d := WayOf(s.requests[d])])
  }

  /** Finishing a node that has all it needs leaves its parents to be told. */
  lemma Finish(s: State, owed: multiset<Digest>, d: Digest, data: Blob, raws: set<Digest>)
    requires Consistent(s, owed, {d}) && d in s.requests && AllLinks(s.requests)[d] == 0 && owed[d] == 0
    requires d !in s.refused
    requires s.raws <= raws && (d in raws || !Dangling(s.db, s.batch, d, data, s.asks))
    ensures Consistent(Finished(s, d, data, raws), owed + multiset(s.requests[d].parents), {})
  {
    hide Closed, Ordered, Counted, Alive, Waiting, Kids, AllLinks, Served, Dangling, Carried;
    var t := Finished(s, d, data, raws);
    ClosedMore(s.db, s.dbAsks, s.raws, raws);
    FinishOrdered(s.db, s.batch, s.order, s.doneAsks, s.raws, d, data, s.asks, raws);
    FinishAlive(s.requests, s.asks, owed, d);
    FinishCarried(s.requests, d, t.batch);
    FinishWaiting(s, d, t);
    ServedKeeps(s.db, s.batch, s.requests, s.asks, t.batch, t.requests, t.asks);
    FinishCounted(s.requests, owed, d);
  }

  lemma FinishCarried(m: Requests, d: Digest, batch': Store)
    requires d in batch'
    ensures Carried(m, m - {d}, batch')
  {}

  lemma FinishWaiting(s: State, d: Digest, t: State)
    requires Waiting(s.db, s.batch, s.requests, {d} + s.refused) && t.requests == s.requests - {d} && t.db == s.db
    requires s.batch.Keys <= t.batch.Keys && Carried(s.requests, t.requests, t.batch) && t.refused == s.refused
    ensures Waiting(t.db, t.batch, t.requests, {} + t.refused)
  {
    hide Kids, Carried;
    WaitingOf(s.db, s.batch, s.requests, {d} + s.refused, t.batch, t.requests, {} + t.refused);
  }

  /** The same with the requests that are left as they were. */
  lemma WaitingOf(db: Store, batch: Store, m: Requests, skip: set<Digest>, batch': Store, m': Requests,
                  skip': set<Digest>)
    requires Waiting(db, batch, m, skip) && batch.Keys <= batch'.Keys && Carried(m, m', batch')
    requires forall q :: q in m' && q !in skip' ==> q in m && q !in skip && m'[q] == m[q]
    ensures Waiting(db, batch', m', skip')
  {
    hide Kids, Carried, Linked;
    forall q | Delivered(m', q) && q !in skip'
      ensures m'[q].deps > 0 && Linked(db, batch', m', q, Kids(q, m'[q].data.value))
    {
      assert Delivered(m, q);
      LinkedKeeps(db, batch, m, batch', m', q, Kids(q, m[q].data.value));
    }
  }

  /** A request changes in what it waits for only. */
  lemma SameCarried(m: Requests, p: Digest, r: Request, batch: Store)
    requires p in m && r.parents == m[p].parents
    ensures Carried(m, m[p := r], batch)
  {}

  /** One answer less is owed to `p`; if it was the last one, all `p` needs is present. */
  lemma Told(s: State, owed: multiset<Digest>, p: Digest, t: State)
    requires Consistent(s, owed + multiset{p}, {}) && p in s.requests
    requires t == s.(requests := s.requests[p := s.requests[p].(deps := s.requests[p].deps - 1)])
    ensures Consistent(t, owed, if t.requests[p].deps == 0 then {p} else {}) && Delivered(t.requests, p)
    ensures t.requests[p].deps == 0 ==>
      AllLinks(t.requests)[p] == 0 && owed[p] == 0 && p !in t.refused
      && !Dangling(t.db, t.batch, p, t.requests[p].data.value, t.asks)
  {
    hide Closed, Ordered, Kids, AllLinks, Waiting, Linked, Served, Dangling, Needs, Carried;
    var m, r := s.requests, t.requests[p];
    assert p in owed + multiset{p};
    assert forall q :: q in owed ==> q in owed + multiset{p};
    Recount(m, owed + multiset{p}, p, r, owed);
    RecountAlive(m, s.asks, owed + multiset{p}, p, r, owed);
    SameCarried(m, p, r, s.batch);
    ServedKeeps(s.db, s.batch, m, s.asks, s.batch, t.requests, s.asks);
    assert p !in s.refused;
    if r.deps == 0 {
      WaitingOf(s.db, s.batch, m, {} + s.refused, s.batch, t.requests, {p} + s.refused);
      TakenLast(s.db, s.batch, m, s.refused, p);
      LinksKeep(m, p, r);
      Satisfied(s.db, s.batch, m, s.asks, p);
    } else {
      AskWaiting(s.db, s.batch, m, {} + s.refused, p, r.deps);
    }
  }

  lemma TakenLast(db: Store, batch: Store, m: Requests, refused: set<Digest>, p: Digest)
    requires Waiting(db, batch, m, {} + refused) && Delivered(m, p) && p !in refused
    ensures Linked(db, batch, m, p, Kids(p, m[p].data.value))
  {}

  /** `n` more answers are awaited by `p`. */
  lemma Bump(s: State, owed: multiset<Digest>, open: set<Digest>, p: Digest, n: nat, t: State)
    requires Consistent(s, owed, open) && Delivered(s.requests, p) && p !in s.refused
    requires t == s.(requests := s.requests[p := s.requests[p].(deps := s.requests[p].deps + n)])
    ensures Consistent(t, owed[p := owed[p] + n], open) && Delivered(t.requests, p)
  {
    hide Closed, Ordered, Kids, AllLinks, Linked, Served, Needs, Carried, Waiting;
    var owed' := owed[p := owed[p] + n];
    Recount(s.requests, owed, p, t.requests[p], owed');
    RecountAlive(s.requests, s.asks, owed, p, t.requests[p], owed');
    SameCarried(s.requests, p, t.requests[p], s.batch);
    ServedKeeps(s.db, s.batch, s.requests, s.asks, s.batch, t.requests, s.asks);
    AskWaiting(s.db, s.batch, s.requests, open + s.refused, p, s.requests[p].deps + n);
  }

  lemma AskWaiting(db: Store, batch: Store, m: Requests, skip: set<Digest>, p: Digest, n: int)
    requires Waiting(db, batch, m, skip) && p in m && (n > 0 || m[p].deps <= n)
    ensures Waiting(db, batch, m[p := m[p].(deps := n)], skip)
  {
    hide Kids, Carried, Linked;
    var m' := m[p := m[p].(deps := n)];
    SameCarried(m, p, m'[p], batch);
    forall q | Delivered(m', q) && q !in skip ensures m'[q].deps > 0 && Delivered(m, q) {
      assert Delivered(m, q);
    }
    WaitingKeeps(db, batch, m, skip, batch, m', skip);
  }

  /** A request is scheduled for parents that need it; `asks` may record that they asked. */
  lemma ScheduleOk(s: State, owed: multiset<Digest>, open: set<Digest>, c: Digest, r: Request, asks: Asks)
    requires Consistent(s, owed + multiset(r.parents), open) && c !in s.batch && r.data.None? && r.deps == 0
    requires AsksFor(s.asks, asks, c, r.parents)
    requires forall p :: p in r.parents && Delivered(s.requests, p) ==>
      c in Needs(p, s.requests[p].data.value, asks)
    ensures Consistent(s.(requests := Scheduled(s.requests, c, r), asks := asks), owed, open)
  {
    hide Closed, Ordered, Kids, AllLinks, Waiting, Linked, Counted, Alive, Served, Needs;
    var m := Scheduled(s.requests, c, r);
    if c !in s.requests { NoLinks(s.requests, s.asks, owed + multiset(r.parents), c); }
    ScheduleCounted(s.requests, owed, c, r);
    ScheduleAlive(s.requests, s.asks, owed, c, r, asks);
    ScheduleServed(s.db, s.batch, s.requests, s.asks, c, r, asks);
    ScheduleWaiting(s.db, s.batch, s.requests, open + s.refused, c, r);
  }

  /** `x'` is `x`, or also records that some of `ps` asked for `c`. */
  ghost predicate AsksFor(x: Asks, x': Asks, c: Digest, ps: seq<Digest>) {
    && Widened(x, x') && (forall p :: p in x' ==> p in x || p in ps)
    && (forall p, e :: p in x' && e in x'[p] ==> (p in x && e in x[p]) || (e == c && p in ps))
  }

  lemma ScheduleServed(db: Store, batch: Store, m: Requests, x: Asks, c: Digest, r: Request, x': Asks)
    requires Served(db, batch, m, x) && AsksFor(x, x', c, r.parents)
    ensures Served(db, batch, Scheduled(m, c, r), x')
  {
    var m' := Scheduled(m, c, r);
    forall p | p in x' ensures Linked(db, batch, m', p, x'[p]) {
      forall e | e in x'[p] ensures Here(db, batch, e) || (e in m' && p in m'[e].parents) {
        if p in x && e in x[p] { assert Linked(db, batch, m, p, x[p]); }
      }
    }
  }

  lemma ScheduleWaiting(db: Store, batch: Store, m: Requests, skip: set<Digest>, c: Digest, r: Request)
    requires Waiting(db, batch, m, skip) && r.data.None?
    ensures Waiting(db, batch, Scheduled(m, c, r), skip)
  {
    hide Kids;
    var m' := Scheduled(m, c, r);
    assert Carried(m, m', batch);
    assert forall q :: Delivered(m', q) ==> Delivered(m, q) && m'[q].deps == m[q].deps && m'[q].data == m[q].data;
    WaitingKeeps(db, batch, m, skip, batch, m', skip);
  }

  lemma AsksSame(x: Asks, c: Digest, ps: seq<Digest>)
    ensures AsksFor(x, x, c, ps)
  {}

  /** `p`, if it is one, asked for `c`. */
  ghost function Noted(x: Asks, p: Digest, c: Digest): Asks {
    if p == Zero() then x else x[p := AskedBy(x, p) + {c}]
  }

  lemma AsksNoted(x: Asks, p: Digest, c: Digest, ps: seq<Digest>)
    requires p == Zero() || p in ps
    ensures AsksFor(x, Noted(x, p, c), c, ps)
  {}

  /** A callback asks for something that is present already. */
  lemma NoteOk(s: State, open: set<Digest>, p: Digest, c: Digest)
    requires Consistent(s, multiset{}, open) && (p != Zero() ==> Delivered(s.requests, p)) && Here(s.db, s.batch, c)
    ensures Consistent(s.(asks := Noted(s.asks, p, c)), multiset{}, open)
  {
    hide Closed, Ordered, Kids, AllLinks, Waiting, Counted, Alive, Served, Quiet, Apart, Noted;
    NoteAlive(s.requests, s.asks, p, c);
    NoteServed(s.db, s.batch, s.requests, s.asks, p, c);
  }

  lemma NoteAlive(m: Requests, x: Asks, p: Digest, c: Digest)
    requires Alive(m, x, multiset{}) && (p != Zero() ==> Delivered(m, p))
    ensures Alive(m, Noted(x, p, c), multiset{})
  {
    hide Kids;
    forall e, q | e in m && q in m[e].parents
      ensures Delivered(m, q) && e in Needs(q, m[q].data.value, Noted(x, p, c)) {}
  }

  lemma NoteServed(db: Store, batch: Store, m: Requests, x: Asks, p: Digest, c: Digest)
    requires Served(db, batch, m, x) && Here(db, batch, c)
    ensures Served(db, batch, m, Noted(x, p, c))
  {
    assert p in x ==> Linked(db, batch, m, p, x[p]);
  }

  lemma DeliverOk(s: State, d: Digest, data: Blob, t: State)
    requires Consistent(s, multiset{}, {}) && d in s.requests && s.requests[d].data.None? && !s.requests[d].raw
    requires t == s.(requests := s.requests[d := s.requests[d].(data := Some(data))])
    ensures Consistent(t, multiset{}, {d}) && t.requests[d].deps == 0 && d !in t.refused && AskedBy(t.asks, d) == {}
  {
    hide Closed, Ordered, Kids, AllLinks, Waiting, Linked, Served, Needs, Carried;
    NoLinks(s.requests, s.asks, multiset{}, d);
    Recount(s.requests, multiset{}, d, t.requests[d], multiset{});
    RecountAlive(s.requests, s.asks, multiset{}, d, t.requests[d], multiset{});
    SameCarried(s.requests, d, t.requests[d], s.batch);
    ServedKeeps(s.db, s.batch, s.requests, s.asks, s.batch, t.requests, s.asks);
    WaitingOf(s.db, s.batch, s.requests, {} + s.refused, s.batch, t.requests, {d} + s.refused);
  }

  lemma OpenOk(s: State, owed: multiset<Digest>, open: set<Digest>)
    requires Consistent(s, owed, {})
    ensures Consistent(s, owed, open)
  {
    hide Closed, Ordered, Kids, AllLinks, Linked, Counted, Alive, Served;
  }

  /** The node taken apart waits, and for all it misses. */
  lemma CloseOk(s: State, owed: multiset<Digest>, d: Digest)
    requires Consistent(s, owed, {d}) && Delivered(s.requests, d) && s.requests[d].deps > 0
    requires Linked(s.db, s.batch, s.requests, d, Kids(d, s.requests[d].data.value))
    ensures Consistent(s, owed, {})
  {
    hide Closed, Ordered, Kids, AllLinks, Linked, Counted, Alive, Served;
  }

  /** Or its leaf was refused, and it stays behind. */
  lemma RefuseOk(s: State, d: Digest)
    requires Consistent(s, multiset{}, {d}) && Delivered(s.requests, d) && s.requests[d].deps == 0
    ensures Consistent(s.(refused := s.refused + {d}), multiset{}, {})
  {
    hide Closed, Ordered, Kids, AllLinks, Linked, Counted, Alive, Served;
    assert {d} + s.refused == {} + (s.refused + {d});
  }

  lemma ZeroDeps(m: Requests, d: Digest)
    requires Counted(m, multiset{}) && d in m && m[d].deps == 0
    ensures AllLinks(m)[d] == 0
  {}

  // --- what the invariant gives ---

  lemma DepsNat(s: State, open: set<Digest>, d: Digest)
    requires Consistent(s, multiset{}, open) && d in s.requests
    ensures s.requests[d].deps >= 0
  {}

  /** An unanswered request waits for nothing. */
  lemma Unanswered(s: State, d: Digest)
    requires Consistent(s, multiset{}, {}) && !Delivered(s.requests, d)
    ensures AllLinks(s.requests)[d] == 0 && d !in s.refused && AskedBy(s.asks, d) == {}
  {
    hide Closed, Ordered, Kids, AllLinks, Waiting, Served;
    NoLinks(s.requests, s.asks, multiset{}, d);
  }

  /** An answer that was not refused waits for something. */
  lemma StillWaits(s: State, d: Digest)
    requires Consistent(s, multiset{}, {}) && Delivered(s.requests, d) && d !in s.refused
    ensures s.requests[d].deps > 0
  {
    hide Closed, Ordered, Kids, AllLinks, Served, Linked;
  }

  lemma NotFinished(s: State, d: Digest)
    requires Consistent(s, multiset{}, {}) && d in s.requests
    ensures d !in s.batch
  {
    hide Closed, Ordered, Kids, AllLinks, Served, Linked, Waiting;
  }

  lemma Unrefused(s: State, d: Digest)
    requires Consistent(s, multiset{}, {}) && d in s.requests && s.requests[d].deps > 0
    ensures d !in s.refused
  {
    hide Closed, Ordered, Kids, AllLinks, Served, Linked, Waiting;
  }

  lemma OwedLives(s: State, owed: multiset<Digest>, p: Digest)
    requires Consistent(s, owed + multiset{p}, {})
    ensures Delivered(s.requests, p)
  {
    hide Closed, Ordered, Kids, AllLinks, Waiting, Served;
    assert p in owed + multiset{p};
  }

  lemma FreshKey(s: State, owed: multiset<Digest>, d: Digest)
    requires Consistent(s, owed, {d}) && d in s.requests
    ensures d !in s.batch && d !in s.doneAsks
  {
    hide Kids, Closed, Counted, Alive, Served, Waiting, Quiet;
  }

  lemma InBatch(s: State)
    requires Consistent(s, multiset{}, {})
    ensures (forall d :: d in s.batch <==> d in s.order) && s.doneAsks.Keys == s.batch.Keys
    ensures Closed(s.db, s.dbAsks, s.raws) && Ordered(s.db, s.batch, s.order, s.doneAsks, s.raws)
  {
    hide Kids, Closed, Counted, Alive, Served, Waiting, Quiet;
  }

  /** A node that waits for nothing and misses none of its own references has all it needs. */
  lemma NothingMissing(s: State, d: Digest)
    requires Consistent(s, multiset{}, {d}) && Delivered(s.requests, d) && s.requests[d].deps == 0
    requires forall c :: c in Kids(d, s.requests[d].data.value) ==> Here(s.db, s.batch, c)
    ensures !Dangling(s.db, s.batch, d, s.requests[d].data.value, s.asks) && AllLinks(s.requests)[d] == 0
  {
    hide Closed, Ordered, Kids, AllLinks, Alive, Waiting, Dangling;
    ZeroDeps(s.requests, d);
    Satisfied(s.db, s.batch, s.requests, s.asks, d);
  }

  // --- what is kept track of ---

  predicate Tracked(s: State, d: Digest) { d in s.db || d in s.batch || d in s.requests }

  ghost predicate Covered(wanted: set<Digest>, s: State) { forall w :: w in wanted ==> Tracked(s, w) }

  /** Nothing is lost on the way from `s` to `t`. */
  ghost predicate Keeps(s: State, t: State) { forall d :: Tracked(s, d) ==> Tracked(t, d) }

  lemma KeepsGrown(s: State, t: State)
    requires s.db.Keys <= t.db.Keys && s.batch.Keys <= t.batch.Keys && s.requests.Keys <= t.requests.Keys + t.batch.Keys
    ensures Keeps(s, t)
  {}

  lemma CoveredKeeps(wanted: set<Digest>, s: State, t: State)
    requires Covered(wanted, s) && Keeps(s, t)
    ensures Covered(wanted, t)
  {}

  lemma CoveredMore(wanted: set<Digest>, s: State, d: Digest)
    requires Covered(wanted, s) && Tracked(s, d)
    ensures Covered(wanted + {d}, s)
  {}

  // --- progress ---

  /** If every request is answered and none was refused, nothing that a node needs stands higher
      than the node, and so nothing is outstanding. */
  lemma {:induction false} Drained(s: State, rank: Digest -> nat, p: Digest)
    requires Consistent(s, multiset{}, {}) && s.refused == {}
    requires (forall d :: d in s.requests ==> Delivered(s.requests, d))
    requires forall d, c :: Delivered(s.requests, d) && c in Needs(d, s.requests[d].data.value, s.asks) ==>
      rank(c) < rank(d)
    ensures p !in s.requests
    decreases rank(p)
  {
    hide Closed, Ordered, Kids, AllLinks, Linked, Served, Needs;
    if p in s.requests {
      assert s.requests[p].deps > 0;
      var c := LinksOf(s.requests, p);
      assert c in Needs(p, s.requests[p].data.value, s.asks);
      Drained(s, rank, c);
    }
  }

  // --- flushing ---

  /** The map after writing the batch entries of `keys`. */
  function Flushed<V>(db: map<Digest, V>, batch: map<Digest, V>, keys: seq<Digest>): map<Digest, V> {
    map d | d in db.Keys + (set k | k in keys && k in batch) :: if d in keys && d in batch then batch[d] else db[d]
  }

  lemma FlushedIs<V>(db: map<Digest, V>, batch: map<Digest, V>, keys: seq<Digest>)
    requires forall k :: k in keys ==> k in batch
    ensures forall d :: d in Flushed(db, batch, keys) <==> d in db || d in keys
    ensures forall d :: d in Flushed(db, batch, keys) ==>
      Flushed(db, batch, keys)[d] == if d in keys then batch[d] else db[d]
  {}

  lemma FlushedNone<V>(db: map<Digest, V>, batch: map<Digest, V>, order: seq<Digest>)
    ensures Flushed(db, batch, order[..0]) == db
  {
    assert order[..0] == [];
    FlushedIs(db, batch, []);
  }

  lemma FlushedStep<V>(db: map<Digest, V>, batch: map<Digest, V>, order: seq<Digest>, i: nat)
    requires i < |order| && forall k :: k in order ==> k in batch
    ensures Flushed(db, batch, order[..i + 1]) == Flushed(db, batch, order[..i])[order[i] := batch[order[i]]]
  {
    assert order[..i + 1] == order[..i] + [order[i]];
  }

  /** What a flushed node needs. */
  lemma FlushedNeeds(db: Store, batch: Store, x: Asks, y: Asks, keys: seq<Digest>, d: Digest)
    requires (forall k :: k in keys ==> k in batch && k in y) && (d in db || d in keys)
    ensures d in Flushed(db, batch, keys)
    ensures Needs(d, Flushed(db, batch, keys)[d], Flushed(x, y, keys)) ==
      if d in keys then Needs(d, batch[d], y) else Needs(d, db[d], x)
  {
    hide Kids;
  }

  /** Wherever writing stops, the store is closed. */
  lemma FlushClosed(db: Store, batch: Store, order: seq<Digest>, x: Asks, y: Asks, raws: set<Digest>, n: nat)
    requires Closed(db, x, raws) && Ordered(db, batch, order, y, raws) && n <= |order|
    ensures Closed(Flushed(db, batch, order[..n]), Flushed(x, y, order[..n]), raws)
  {
    hide Needs, Flushed;
    var keys := order[..n];
    var f, g := Flushed(db, batch, keys), Flushed(x, y, keys);
    FlushedIs(db, batch, keys);
    forall d, c | d in f && d !in raws && c in Needs(d, f[d], g) ensures c in f {
      FlushedNeeds(db, batch, x, y, keys, d);
      if d in keys {
        var i :| 0 <= i < n && order[i] == d;
        assert c in db || c in order[..i + 1];
        assert order[..i + 1] <= keys;
      }
    }
  }

  /** Every prefix of the batch leaves a closed store, raw entries included. */
  ghost predicate PrefixesClosed(s: State) {
    forall n :: 0 <= n <= |s.order| ==>
      Closed(Flushed(s.db, s.batch, s.order[..n]), Flushed(s.dbAsks, s.doneAsks, s.order[..n]), {})
  }

  /** That is so exactly when each finished entry comes after what it needs, raw or not. */
  lemma PrefixesClosedIff(s: State)
    requires Closed(s.db, s.dbAsks, {}) && s.doneAsks.Keys == s.batch.Keys
    requires (forall d :: d in s.batch <==> d in s.order)
    ensures PrefixesClosed(s) <==> Ordered(s.db, s.batch, s.order, s.doneAsks, {})
  {
    hide Needs, Closed, Flushed, Ordered;
    if Ordered(s.db, s.batch, s.order, s.doneAsks, {}) {
      forall n | 0 <= n <= |s.order|
        ensures Closed(Flushed(s.db, s.batch, s.order[..n]), Flushed(s.dbAsks, s.doneAsks, s.order[..n]), {})
      {
        FlushClosed(s.db, s.batch, s.order, s.dbAsks, s.doneAsks, {}, n);
      }
    }
    if PrefixesClosed(s) {
      forall i, c | 0 <= i < |s.order| && c in Needs(s.order[i], s.batch[s.order[i]], s.doneAsks)
        ensures c in s.db || c in s.order[..i + 1]
      {
        WasClosed(s, i, c);
      }
      IsOrdered(s);
    }
  }

  lemma IsOrdered(s: State)
    requires s.doneAsks.Keys == s.batch.Keys && (forall d :: d in s.batch <==> d in s.order)
    requires forall i, c :: 0 <= i < |s.order| && c in Needs(s.order[i], s.batch[s.order[i]], s.doneAsks) ==>
      c in s.db || c in s.order[..i + 1]
    ensures Ordered(s.db, s.batch, s.order, s.doneAsks, {})
  {
    hide Needs;
  }

  lemma WasClosed(s: State, i: nat, c: Digest)
    requires i < |s.order| && (forall d :: d in s.order ==> d in s.batch && d in s.doneAsks) && PrefixesClosed(s)
    requires c in Needs(s.order[i], s.batch[s.order[i]], s.doneAsks)
    ensures c in s.db || c in s.order[..i + 1]
  {
    hide Needs, Flushed;
    var keys := s.order[..i + 1];
    assert keys[i] == s.order[i];
    assert Closed(Flushed(s.db, s.batch, keys), Flushed(s.dbAsks, s.doneAsks, keys), {});
    FlushedIs(s.db, s.batch, keys);
    FlushedNeeds(s.db, s.batch, s.dbAsks, s.doneAsks, keys, s.order[i]);
  }

  lemma OrderedGrows(db: Store, batch: Store, order: seq<Digest>, x: Asks, raws: set<Digest>, db': Store)
    requires Ordered(db, batch, order, x, raws) && db.Keys <= db'.Keys
    ensures Ordered(db', batch, order, x, raws)
  {
    hide Needs;
  }

  lemma LinkedGrows(db: Store, batch: Store, m: Requests, db': Store, batch': Store, p: Digest, cs: set<Digest>)
    requires Linked(db, batch, m, p, cs) && db.Keys <= db'.Keys && batch.Keys <= db'.Keys + batch'.Keys
    ensures Linked(db', batch', m, p, cs)
  {}

  lemma WaitingGrows(db: Store, batch: Store, m: Requests, x: Asks, skip: set<Digest>, db': Store, batch': Store)
    requires Waiting(db, batch, m, skip) && Served(db, batch, m, x)
    requires db.Keys <= db'.Keys && batch.Keys <= db'.Keys + batch'.Keys
    ensures Waiting(db', batch', m, skip) && Served(db', batch', m, x)
  {
    hide Kids, Linked;
    forall p | Delivered(m, p) && p !in skip ensures Linked(db', batch', m, p, Kids(p, m[p].data.value)) {
      LinkedGrows(db, batch, m, db', batch', p, Kids(p, m[p].data.value));
    }
    forall p | p in x ensures Linked(db', batch', m, p, x[p]) {
      LinkedGrows(db, batch, m, db', batch', p, x[p]);
    }
  }

  /** The state after writing the first `n` entries of the batch. */
  ghost function Written(s: State, n: nat): State
    requires n <= |s.order|
  {
    s.(db := Flushed(s.db, s.batch, s.order[..n]), dbAsks := Flushed(s.dbAsks, s.doneAsks, s.order[..n]),
       dbWays := Flushed(s.dbWays, s.doneWays, s.order[..n]))
  }

  lemma WrittenOk(s: State, n: nat)
    requires Consistent(s, multiset{}, {}) && n <= |s.order|
    requires (forall d :: d in s.batch <==> d in s.order) && s.doneAsks.Keys == s.batch.Keys
    ensures Consistent(Written(s, n), multiset{}, {})
  {
    hide Kids, AllLinks, Linked, Counted, Waiting, Alive, Closed, Ordered, Served, Flushed;
    var t := Written(s, n);
    FlushedIs(s.db, s.batch, s.order[..n]);
    FlushClosed(s.db, s.batch, s.order, s.dbAsks, s.doneAsks, s.raws, n);
    OrderedGrows(s.db, s.batch, s.order, s.doneAsks, s.raws, t.db);
    WaitingGrows(s.db, s.batch, s.requests, s.asks, {} + s.refused, t.db, s.batch);
  }

  lemma WrittenAll(s: State)
    requires Consistent(s, multiset{}, {}) && (forall d :: d in s.batch <==> d in s.order)
    requires s.doneAsks.Keys == s.batch.Keys
    ensures Consistent(Written(s, |s.order|).(batch := map[], order := [], doneAsks := map[], doneWays := map[]),
      multiset{}, {})
  {
    hide Kids, AllLinks, Linked, Counted, Waiting, Alive, Closed, Served, Flushed, Needs;
    var t := Written(s, |s.order|);
    assert s.order[..|s.order|] == s.order;
    FlushedIs(s.db, s.batch, s.order);
    FlushClosed(s.db, s.batch, s.order, s.dbAsks, s.doneAsks, s.raws, |s.order|);
    WaitingGrows(s.db, s.batch, s.requests, s.asks, {} + s.refused, t.db, map[]);
  }

  lemma EmptyOk(s: State)
    requires Closed(s.db, s.dbAsks, s.raws) && s.batch == map[] && s.order == [] && s.requests == map[]
    requires s.doneAsks == map[] && s.asks == map[] && s.refused == {}
    ensures Consistent(s, multiset{}, {})
  {
    hide Kids, Closed;
  }
}
