/** Header import with total-difficulty fork choice (kernel/headerchain.go): the number-to-hash
    index always is the ancestor chain of a heaviest header. */
module HeaderChain {
  import opened Bytes
  import opened Ancestry

  datatype Status = NonStat | Canon | Side

  /** Headers stored by hash and number: exactly those of the tree. */
  ghost predicate HeldHeaders(db: map<(Digest, int), Header>, tree: Headers) {
    && (forall k :: k in db <==> k.0 in tree && k.1 == tree[k.0].number)
    && forall k :: k in db ==> db[k] == tree[k.0]
  }

  ghost predicate HeldTds(db: map<(Digest, int), int>, tree: Headers, genesis: Digest)
    requires Rooted(tree, genesis)
  {
    && (forall k :: k in db <==> k.0 in tree && k.1 == tree[k.0].number)
    && forall k :: k in db ==> db[k] == Td(tree, genesis, k.0)
  }

  ghost predicate CachedHeaders(cache: Headers, tree: Headers) { Larger(cache, tree) }

  ghost predicate CachedTds(cache: map<Digest, int>, tree: Headers, genesis: Digest)
    requires Rooted(tree, genesis)
  {
    forall d :: d in cache ==> d in tree && cache[d] == Td(tree, genesis, d)
  }

  lemma CacheAdd(cache: Headers, tree: Headers, d: Digest)
    requires CachedHeaders(cache, tree) && d in tree
    ensures CachedHeaders(cache[d := tree[d]], tree)
  {}

  lemma HeadersAdd(db: map<(Digest, int), Header>, tree: Headers, d: Digest, hd: Header)
    requires HeldHeaders(db, tree) && (d in tree ==> tree[d] == hd)
    ensures HeldHeaders(db[(d, hd.number) := hd], tree[d := hd])
  {}

  lemma TdsAdd(db: map<(Digest, int), int>, cache: map<Digest, int>, tree: Headers, genesis: Digest, d: Digest,
               hd: Header)
    requires Rooted(tree, genesis) && HeldTds(db, tree, genesis) && CachedTds(cache, tree, genesis)
    requires Rooted(tree[d := hd], genesis) && (d in tree ==> tree[d] == hd)
    ensures HeldTds(db[(d, hd.number) := Td(tree[d := hd], genesis, d)], tree[d := hd], genesis)
    ensures CachedTds(cache[d := Td(tree[d := hd], genesis, d)], tree[d := hd], genesis)
    ensures forall e :: e in tree ==> Td(tree[d := hd], genesis, e) == Td(tree, genesis, e)
  {
    hide Rooted;
    var tree' := tree[d := hd];
    forall e | e in tree ensures Td(tree', genesis, e) == Td(tree, genesis, e) { TdGrows(tree, tree', genesis, e); }
  }

  class HeaderChain {
    const hash: Header -> Digest
    const genesis: Digest
    var headers: map<(Digest, int), Header>
    var tds: map<(Digest, int), int>
    var canon: map<int, Digest>
    var currentHeader: Header
    var currentHeaderHash: Digest
    var headerCache: Headers
    var tdCache: map<Digest, int>
    ghost const u: iset<Header>      // the headers of this run
    ghost var tree: Headers

    ghost predicate Stored()
      reads this
    {
      && Rooted(tree, genesis) && Sealed(tree, hash, u)
      && HeldHeaders(headers, tree) && HeldTds(tds, tree, genesis)
      && CachedHeaders(headerCache, tree) && CachedTds(tdCache, tree, genesis)
    }

    ghost predicate Current()
      reads this
      requires Rooted(tree, genesis)
    {
      && currentHeaderHash in tree && currentHeader == tree[currentHeaderHash]
      && IndexOf(canon, tree, genesis, currentHeaderHash)
    }

    /** The current header is a heaviest one, and the index is its chain. */
    ghost predicate Valid()
      reads this
    {
      Distinct(hash, u) && Stored() && Current() && Heaviest(tree, genesis, currentHeaderHash)
    }

    constructor (hash: Header -> Digest, first: Header, ghost u: iset<Header>)
      requires Distinct(hash, u) && first in u && first.number == 0
      ensures Valid() && tree == map[hash(first) := first] && genesis == hash(first) && this.hash == hash && this.u == u
    {
      this.hash, genesis, this.u := hash, hash(first), u;
      headers := map[(hash(first), 0) := first];
      tds := map[(hash(first), 0) := first.difficulty];
      canon := map[0 := hash(first)];
      currentHeader, currentHeaderHash := first, hash(first);
      headerCache, tdCache, tree := map[], map[], map[hash(first) := first];
    }

    /** Total difficulty of a known header, from the cache if it is there. */
    method GetTd(d: Digest, number: int) returns (td: Option<int>)
      requires Stored()
      modifies this`tdCache
      ensures Stored()
      ensures td ==
        if d in tree && (d in old(tdCache) || number == tree[d].number) then Some(Td(tree, genesis, d)) else None
      ensures tdCache.Keys == if td.Some? then old(tdCache).Keys + {d} else old(tdCache).Keys
    {
      if d in tdCache { return Some(tdCache[d]); }
      if (d, number) !in tds { return None; }
      tdCache := tdCache[d := tds[(d, number)]];
      return Some(tds[(d, number)]);
    }

    method GetHeader(d: Digest, number: int) returns (hd: Option<Header>)
      requires Stored()
      modifies this`headerCache
      ensures Stored()
      ensures hd == if d in tree && (d in old(headerCache) || number == tree[d].number) then Some(tree[d]) else None
      ensures headerCache.Keys == if hd.Some? then old(headerCache).Keys + {d} else old(headerCache).Keys
    {
      if d in headerCache { return Some(headerCache[d]); }
      if (d, number) !in headers { return None; }
      headerCache := headerCache[d := headers[(d, number)]];
      return Some(headers[(d, number)]);
    }

    /** The caches may forget anything at any time. */
    method Evict(hs: set<Digest>, ts: set<Digest>)
      requires Valid()
      modifies this`headerCache, this`tdCache
      ensures Valid() && headerCache == old(headerCache) - hs && tdCache == old(tdCache) - ts
    {
      hide HeldHeaders, HeldTds, Distinct, Sealed, Rooted, IndexOf, Heaviest, Td;
      headerCache, tdCache := headerCache - hs, tdCache - ts;
    }

    function CanonicalHash(n: int): Digest
      reads this
    {
      if n in canon then canon[n] else Zero()
    }

    /** Stores a header whose parent is known. */
    method Store(hd: Header, d: Digest, td: int)
      requires Distinct(hash, u) && Stored() && hd in u && d == hash(hd) && Child(tree, hd)
      requires (d in tree ==> tree[d] == hd)
      requires d != genesis && td == hd.difficulty + Td(tree, genesis, hd.parent)
      modifies this`headers, this`tds, this`tdCache, this`tree
      ensures Stored() && tree == old(tree)[d := hd] && Larger(old(tree), tree) && Td(tree, genesis, d) == td
      ensures forall e :: e in old(tree) ==> Td(tree, genesis, e) == Td(old(tree), genesis, e)
    {
      hide Rooted, HeldHeaders, HeldTds, CachedTds, Distinct;
      RootedAdd(tree, genesis, d, hd);
      ghost var tree' := tree[d := hd];
      HeadersAdd(headers, tree, d, hd);
      TdsAdd(tds, tdCache, tree, genesis, d, hd);
      tds := tds[(d, hd.number) := td];
      tdCache := tdCache[d := td];
      headers := headers[(d, hd.number) := hd];
      tree := tree';
    }

    lemma NonZero(d: Digest)
      requires Distinct(hash, u) && Stored() && d in tree
      ensures d != Zero()
    {
      assert hash(tree[d]) == d;
    }

    lemma KnownSame(hd: Header)
      requires Distinct(hash, u) && Stored() && hd in u && Child(tree, hd)
      ensures hash(hd) != genesis && (hash(hd) in tree ==> tree[hash(hd)] == hd)
    {
      if hash(hd) in tree { assert tree[hash(hd)] in u; }
    }

    /** Removes the index entries above a height. */
    method Truncate(number: nat)
      requires Distinct(hash, u) && Stored() && Current()
      modifies this`canon
      ensures forall k :: k in canon <==> 0 <= k <= number && k <= currentHeader.number
      ensures forall k :: k in canon ==> canon[k] == old(canon)[k]
    {
      hide HeldHeaders, HeldTds, CachedTds, CachedHeaders, Distinct, Sealed, Rooted, IndexOf;
      IndexIn(canon, tree, genesis, currentHeaderHash);
      forall k | k in canon ensures canon[k] != Zero() { NonZero(canon[k]); }
      var i := number + 1;
      while CanonicalHash(i) != Zero()
        invariant number < i && (i <= currentHeader.number + 1 || i == number + 1)
        invariant forall k :: k in canon <==> 0 <= k <= currentHeader.number && !(number < k < i)
        invariant forall k :: k in canon ==> canon[k] == old(canon)[k] != Zero()
        decreases currentHeader.number + 1 - i
      {
        canon := canon - {i};
        i := i + 1;
      }
    }

    /** Rewrites the index below `hd` down to the point where the two chains meet. */
    method Rewrite(hd: Header, ghost d: Digest)
      requires Distinct(hash, u) && Stored() && d in tree && tree[d] == hd && hd.number > 0 && Child(tree, hd)
      requires currentHeaderHash in tree && currentHeader == tree[currentHeaderHash]
      requires Mixed(canon, tree, genesis, currentHeaderHash, d, hd.number - 1)
      modifies this`canon, this`headerCache
      ensures Stored() && IndexOf(canon[hd.number := d], tree, genesis, d)
    {
      hide HeldHeaders, HeldTds, CachedTds, CachedHeaders, Mixed, IndexOf, Rooted, Distinct, Sealed, Td;
      var headHash, headNumber := hd.parent, hd.number - 1;
      AncestorParent(tree, genesis, d, headNumber);
      var headHeader := GetHeader(headHash, headNumber);
      while CanonicalHash(headNumber) != headHash
        invariant Stored() && 0 <= headNumber < hd.number && headHash == Ancestor(tree, genesis, d, headNumber)
        invariant headHeader == Some(tree[headHash]) && Mixed(canon, tree, genesis, currentHeaderHash, d, headNumber)
        decreases headNumber
      {
        MixedGenesis(canon, tree, genesis, currentHeaderHash, d, headNumber);
        MixedStep(canon, tree, genesis, currentHeaderHash, d, headNumber);
        AncestorLink(tree, genesis, d, headNumber);
        canon := canon[headNumber := headHash];
        headHash := headHeader.value.parent;
        headNumber := headNumber - 1;
        headHeader := GetHeader(headHash, headNumber);
      }
      NonZero(headHash);
      MixedDone(canon, tree, genesis, currentHeaderHash, d, headNumber);
    }

    /** Makes a stored header the current one. */
    method Adopt(hd: Header, d: Digest)
      requires Distinct(hash, u) && Stored() && Current() && d in tree && tree[d] == hd && hd.number > 0
      requires Child(tree, hd)
      modifies this`canon, this`headerCache, this`currentHeader, this`currentHeaderHash
      ensures Distinct(hash, u) && Stored() && Current() && currentHeaderHash == d
    {
      hide HeldHeaders, HeldTds, CachedTds, CachedHeaders, Rooted;
      ghost var before := canon;
      Truncate(hd.number);
      StartMixed(before, canon, tree, genesis, currentHeaderHash, d);
      Rewrite(hd, d);
      canon := canon[hd.number := d];
      currentHeaderHash, currentHeader := d, hd;
    }

    /** Writes a header; it becomes the current one if it is heavier, or as heavy and the coin
        says so. */
    method WriteHeader(hd: Header, coin: bool) returns (status: Status, ok: bool)
      requires Valid() && hd in u && (hd.parent in tree ==> hd.number == tree[hd.parent].number + 1)
      modifies this
      ensures Valid()
      ensures ok <==> hd.parent in old(tree)
      ensures !ok ==>
        status.NonStat? && tree == old(tree) && canon == old(canon) && currentHeaderHash == old(currentHeaderHash)
      ensures ok ==> tree == old(tree)[hash(hd) := hd] && hash(hd) in headerCache
      ensures ok ==>
        var extern, local := Td(tree, genesis, hash(hd)), old(Td(tree, genesis, currentHeaderHash));
        status.Canon? <==> extern > local || (extern == local && coin)
      ensures status.Canon? ==> currentHeaderHash == hash(hd)
      ensures ok && !status.Canon? ==>
        status.Side? && canon == old(canon) && currentHeaderHash == old(currentHeaderHash)
    {
      hide HeldHeaders, HeldTds, CachedTds, CachedHeaders, IndexOf, Heaviest, Td, Rooted, Larger, Distinct, Sealed;
      var d := hash(hd);
      var ptd := GetTd(hd.parent, hd.number - 1);
      if ptd.None? { return NonStat, false; }
      var localTd := GetTd(currentHeaderHash, currentHeader.number);
      var externTd := hd.difficulty + ptd.value;
      KnownSame(hd);
      Store(hd, d, externTd);
      HeaviestGrows(old(tree), tree, genesis, currentHeaderHash, d);
      IndexGrows(canon, old(tree), tree, genesis, currentHeaderHash);
      if externTd > localTd.value || (externTd == localTd.value && coin) {
        Adopt(hd, d);
        status := Canon;
      } else {
        status := Side;
      }
      CacheAdd(headerCache, tree, d);
      headerCache := headerCache[d := hd];
      ok := true;
    }

    method HasHeader(d: Digest, number: int) returns (r: bool)
      requires Stored() && (d in tree ==> number == tree[d].number)
      ensures r <==> d in tree
    {
      hide Rooted, HeldTds, CachedTds, Sealed;
      r := d in headerCache || (d, number) in headers;
    }

    /** Each header is the parent of the next. */
    ghost predicate Contiguous(chain: seq<Header>)
    {
      forall i :: 1 <= i < |chain| ==>
        chain[i].parent == hash(chain[i - 1]) && chain[i].number == chain[i - 1].number + 1
    }

    /** The part of the batch check that is about shape. */
    method CheckContiguous(chain: seq<Header>) returns (r: bool)
      ensures r <==> Contiguous(chain)
    {
      var i := 1;
      while i < |chain|
        invariant 1 <= i
        invariant forall j :: 1 <= j < i && j < |chain| ==>
          chain[j].parent == hash(chain[j - 1]) && chain[j].number == chain[j - 1].number + 1
      {
        if chain[i].number != chain[i - 1].number + 1 || chain[i].parent != hash(chain[i - 1]) { return false; }
        i := i + 1;
      }
      return true;
    }

    /** Imports a checked batch; `stop` is where the import is interrupted, if it is. */
    method InsertHeaderChain(chain: seq<Header>, coin: nat -> bool, stop: nat) returns (index: nat, ok: bool)
      requires Valid() && Contiguous(chain) && forall i :: 0 <= i < |chain| ==> chain[i] in u
      requires chain != [] && chain[0].parent in tree ==> chain[0].number == tree[chain[0].parent].number + 1
      modifies this
      ensures Valid() && Larger(old(tree), tree)
      ensures ok ==> index == 0 && forall i :: 0 <= i < |chain| ==> hash(chain[i]) in tree
      ensures !ok ==> index < |chain| && (index == stop || chain[index].parent !in tree)
      ensures !ok ==> forall i :: 0 <= i < index ==> hash(chain[i]) in tree
    {
      hide HeldHeaders, HeldTds, CachedTds, CachedHeaders, IndexOf, Heaviest, Td, Rooted, Sealed, Distinct;
      var i := 0;
      while i < |chain|
        invariant 0 <= i <= |chain| && Valid() && Larger(old(tree), tree)
        invariant forall j :: 0 <= j < i ==> hash(chain[j]) in tree
        invariant i < |chain| && chain[i].parent in tree ==> chain[i].number == tree[chain[i].parent].number + 1
      {
        if i == stop { return i, false; }
        SameNumber(chain[i]);
        var has := HasHeader(hash(chain[i]), chain[i].number);
        if !has {
          var status, written := WriteHeader(chain[i], coin(i));
          if !written { return i, false; }
        }
        SameNumber(chain[i]);
        assert i + 1 < |chain| ==> chain[i + 1].parent == hash(chain[i]);
        i := i + 1;
      }
      return 0, true;
    }

    lemma SameNumber(hd: Header)
      requires Distinct(hash, u) && Stored() && hd in u
      ensures hash(hd) in tree ==> tree[hash(hd)] == hd
    {
      if hash(hd) in tree { assert tree[hash(hd)] in u; }
    }
  }

  ghost predicate Heaviest(tree: Headers, genesis: Digest, head: Digest)
    requires Rooted(tree, genesis) && head in tree
  {
    forall d :: d in tree ==> Td(tree, genesis, d) <= Td(tree, genesis, head)
  }

  /** After adding `d`, the heavier of it and the old head is a heaviest header. */
  lemma HeaviestGrows(tree: Headers, tree': Headers, genesis: Digest, head: Digest, d: Digest)
    requires Rooted(tree, genesis) && Rooted(tree', genesis) && Larger(tree, tree') && d in tree'
    requires tree'.Keys == tree.Keys + {d}
    requires head in tree && Heaviest(tree, genesis, head)
    ensures Td(tree', genesis, d) <= Td(tree', genesis, head) ==> Heaviest(tree', genesis, head)
    ensures Td(tree', genesis, d) >= Td(tree', genesis, head) ==> Heaviest(tree', genesis, d)
    ensures Td(tree', genesis, head) == Td(tree, genesis, head)
  {
    hide Td, Rooted, Larger;
    TdGrows(tree, tree', genesis, head);
    forall e | e in tree'
      ensures Td(tree', genesis, e) <= Td(tree', genesis, head) || Td(tree', genesis, e) <= Td(tree', genesis, d)
    {
      if e != d { TdGrows(tree, tree', genesis, e); }
    }
    forall e | e in tree ensures Td(tree', genesis, e) <= Td(tree', genesis, head) { TdGrows(tree, tree', genesis, e); }
  }

  lemma IndexIn(canon: map<int, Digest>, tree: Headers, genesis: Digest, head: Digest)
    requires Rooted(tree, genesis) && head in tree && IndexOf(canon, tree, genesis, head)
    ensures forall k :: k in canon <==> 0 <= k <= tree[head].number
    ensures forall k :: k in canon ==> canon[k] in tree
  {
    hide Rooted;
  }

  lemma IndexGrows(canon: map<int, Digest>, tree: Headers, tree': Headers, genesis: Digest, head: Digest)
    requires Rooted(tree, genesis) && Rooted(tree', genesis) && Larger(tree, tree') && head in tree
    requires IndexOf(canon, tree, genesis, head)
    ensures IndexOf(canon, tree', genesis, head)
  {
    forall k: nat | k <= tree[head].number ensures canon[k] == Ancestor(tree', genesis, head, k) {
      AncestorGrows(tree, tree', genesis, head, k);
    }
  }

  /** The index follows `d` between `j` and its parent's height, and `cur` up to `j`. */
  ghost predicate Mixed(canon: map<int, Digest>, tree: Headers, genesis: Digest, cur: Digest, d: Digest, j: int)
    requires Rooted(tree, genesis) && cur in tree && d in tree && j < tree[d].number
  {
    && (forall k: nat :: j < k < tree[d].number ==> k in canon && canon[k] == Ancestor(tree, genesis, d, k))
    && (forall k: nat :: k <= j && k in canon ==> k <= tree[cur].number && canon[k] == Ancestor(tree, genesis, cur, k))
    && (forall k: nat :: k <= j && k <= tree[cur].number ==> k in canon)
    && (forall k :: k in canon ==> 0 <= k <= tree[d].number)
  }

  lemma StartMixed(before: map<int, Digest>, canon: map<int, Digest>, tree: Headers, genesis: Digest, cur: Digest,
                   d: Digest)
    requires Rooted(tree, genesis) && cur in tree && d in tree && tree[d].number > 0
    requires IndexOf(before, tree, genesis, cur)
    requires forall k :: k in canon <==> 0 <= k <= tree[d].number && k <= tree[cur].number
    requires forall k :: k in canon ==> canon[k] == before[k]
    ensures Mixed(canon, tree, genesis, cur, d, tree[d].number - 1)
  {
    hide Rooted;
  }

  lemma MixedGenesis(canon: map<int, Digest>, tree: Headers, genesis: Digest, cur: Digest, d: Digest, j: nat)
    requires Rooted(tree, genesis) && cur in tree && d in tree && j < tree[d].number
    requires Mixed(canon, tree, genesis, cur, d, j)
    ensures j == 0 ==> 0 in canon && canon[0] == Ancestor(tree, genesis, d, 0)
  {
    AncestorZero(tree, genesis, d);
    AncestorZero(tree, genesis, cur);
  }

  lemma MixedStep(canon: map<int, Digest>, tree: Headers, genesis: Digest, cur: Digest, d: Digest, j: nat)
    requires Rooted(tree, genesis) && cur in tree && d in tree && j < tree[d].number
    requires Mixed(canon, tree, genesis, cur, d, j)
    ensures Mixed(canon[j := Ancestor(tree, genesis, d, j)], tree, genesis, cur, d, j - 1)
  {
    hide Rooted, Ancestor;
  }

  lemma MixedDone(canon: map<int, Digest>, tree: Headers, genesis: Digest, cur: Digest, d: Digest, j: nat)
    requires Rooted(tree, genesis) && cur in tree && d in tree && j < tree[d].number
    requires Mixed(canon, tree, genesis, cur, d, j)
    requires j in canon && canon[j] == Ancestor(tree, genesis, d, j)
    ensures IndexOf(canon[tree[d].number := d], tree, genesis, d)
  {
    hide Rooted;
    var c := canon[tree[d].number := d];
    forall k: nat | k <= tree[d].number ensures k in c && c[k] == Ancestor(tree, genesis, d, k) {
      if k <= j {
        AncestorTrans(tree, genesis, d, j, k);
        AncestorTrans(tree, genesis, cur, j, k);
      }
    }
  }

  // --- common ancestors (kernel/database_util.go) ---

  /** `m` is the height of the last block two chains share. */
  ghost predicate LastShared(tree: Headers, genesis: Digest, a: Digest, b: Digest, m: nat)
    requires Rooted(tree, genesis) && a in tree && b in tree
  {
    && m <= tree[a].number && m <= tree[b].number && Ancestor(tree, genesis, a, m) == Ancestor(tree, genesis, b, m)
    && forall k: nat :: m < k <= tree[a].number && k <= tree[b].number ==>
      Ancestor(tree, genesis, a, k) != Ancestor(tree, genesis, b, k)
  }

  /** Some of the headers, filed under hash and number. */
  ghost predicate SomeHeaders(db: map<(Digest, int), Header>, tree: Headers) {
    forall k :: k in db ==> k.0 in tree && k.1 == tree[k.0].number && db[k] == tree[k.0]
  }

  /** One step down from the ancestor of `d` at height `k`. */
  lemma StepDown(db: map<(Digest, int), Header>, tree: Headers, genesis: Digest, d: Digest, k: nat)
    requires Rooted(tree, genesis) && SomeHeaders(db, tree) && d in tree && 0 < k <= tree[d].number
    ensures var hd, below := tree[Ancestor(tree, genesis, d, k)], Ancestor(tree, genesis, d, k - 1);
      hd.parent == below && ((below, k - 1) in db ==> db[(below, k - 1)] == tree[below])
  {
    hide Rooted;
    AncestorLink(tree, genesis, d, k);
  }

  lemma AncestorSelf(tree: Headers, genesis: Digest, d: Digest)
    requires Rooted(tree, genesis) && d in tree
    ensures Ancestor(tree, genesis, d, tree[d].number) == d
  {}

  /** The headers below `d` down to height `k` are in the database. */
  ghost predicate HeldDown(db: map<(Digest, int), Header>, tree: Headers, genesis: Digest, d: Digest, k: int)
    requires Rooted(tree, genesis) && d in tree
  {
    forall j: nat :: k <= j < tree[d].number ==> (Ancestor(tree, genesis, d, j), j) in db
  }

  /** The chains of `a` and `b` differ at all heights above `k`. */
  ghost predicate Differ(tree: Headers, genesis: Digest, a: Digest, b: Digest, k: int)
    requires Rooted(tree, genesis) && a in tree && b in tree
  {
    forall j: nat :: k < j <= tree[a].number && j <= tree[b].number ==>
      Ancestor(tree, genesis, a, j) != Ancestor(tree, genesis, b, j)
  }

  /** A header that is missing at height `k`, where the chains have not met yet. */
  ghost predicate Gap(db: map<(Digest, int), Header>, tree: Headers, genesis: Digest, a: Digest, b: Digest, k: nat)
    requires Rooted(tree, genesis) && a in tree && b in tree
  {
    && Differ(tree, genesis, a, b, k)
    && ((k < tree[a].number && (Ancestor(tree, genesis, a, k), k) !in db)
        || (k < tree[b].number && (Ancestor(tree, genesis, b, k), k) !in db))
  }

  /** Where the headers are held down to the last shared one there is no gap. */
  lemma NoGap(db: map<(Digest, int), Header>, tree: Headers, genesis: Digest, a: Digest, b: Digest, m: nat)
    requires Rooted(tree, genesis) && a in tree && b in tree && LastShared(tree, genesis, a, b, m)
    requires HeldDown(db, tree, genesis, a, m) && HeldDown(db, tree, genesis, b, m)
    ensures forall k: nat :: !Gap(db, tree, genesis, a, b, k)
  {
    hide Rooted, Ancestor;
  }

  lemma HeldNext(db: map<(Digest, int), Header>, tree: Headers, genesis: Digest, d: Digest, k: nat)
    requires Rooted(tree, genesis) && d in tree && k < tree[d].number && HeldDown(db, tree, genesis, d, k + 1)
    requires (Ancestor(tree, genesis, d, k), k) in db
    ensures HeldDown(db, tree, genesis, d, k)
  {
    hide Rooted, Ancestor;
  }

  /** The last header two chains share; none exactly if one is missing in the database before the
      chains meet. */
  method FindCommonAncestor(hash: Header -> Digest, db: map<(Digest, int), Header>, a0: Header, b0: Header,
                            ghost u: iset<Header>, ghost tree: Headers, ghost genesis: Digest)
    returns (r: Option<Header>, ghost m: nat)
    requires Rooted(tree, genesis) && SomeHeaders(db, tree) && Sealed(tree, hash, u)
    requires hash(a0) in tree && tree[hash(a0)] == a0 && hash(b0) in tree && tree[hash(b0)] == b0
    ensures r.Some? ==>
      LastShared(tree, genesis, hash(a0), hash(b0), m) && r.value == tree[Ancestor(tree, genesis, hash(a0), m)]
    ensures r.None? <==> exists k: nat :: Gap(db, tree, genesis, hash(a0), hash(b0), k)
  {
    hide Rooted, SomeHeaders, Sealed, HeldDown, Differ, Gap;
    ghost var x, y := hash(a0), hash(b0);
    AncestorSelf(tree, genesis, x);
    AncestorSelf(tree, genesis, y);
    Outset(db, tree, genesis, x, y);
    var a := Lower(db, a0, b0.number, tree, genesis, x, y);
    if a.None? { return None, 0; }
    var b := Lower(db, b0, a.value.number, tree, genesis, y, x);
    if b.None? {
      SwapGap(db, tree, genesis, x, y);
      return None, 0;
    }
    r, m := Meet(hash, db, a.value, b.value, u, tree, genesis, x, y);
  }

  /** Nothing has been read yet. */
  lemma Outset(db: map<(Digest, int), Header>, tree: Headers, genesis: Digest, x: Digest, y: Digest)
    requires Rooted(tree, genesis) && x in tree && y in tree
    ensures HeldDown(db, tree, genesis, x, tree[x].number) && HeldDown(db, tree, genesis, y, tree[y].number)
  {}

  lemma SwapGap(db: map<(Digest, int), Header>, tree: Headers, genesis: Digest, x: Digest, y: Digest)
    requires Rooted(tree, genesis) && x in tree && y in tree && exists k: nat :: Gap(db, tree, genesis, y, x, k)
    ensures exists k: nat :: Gap(db, tree, genesis, x, y, k)
  {
    hide Ancestor, Rooted;
    var k: nat :| Gap(db, tree, genesis, y, x, k);
    assert Gap(db, tree, genesis, x, y, k);
  }

  /** Walks down from `a0` to the height `n`, where the other chain has no block above. */
  method Lower(db: map<(Digest, int), Header>, a0: Header, n: nat, ghost tree: Headers, ghost genesis: Digest,
               ghost x: Digest, ghost y: Digest)
    returns (r: Option<Header>)
    requires Rooted(tree, genesis) && SomeHeaders(db, tree) && x in tree && y in tree && tree[x] == a0
    requires n <= tree[y].number && (n < tree[y].number ==> a0.number <= n)
    ensures r.Some? ==>
      && r.value.number == (if a0.number <= n then a0.number else n)
      && r.value == tree[Ancestor(tree, genesis, x, r.value.number)] && HeldDown(db, tree, genesis, x, r.value.number)
    ensures r.None? ==> exists k: nat :: Gap(db, tree, genesis, x, y, k)
  {
    hide Rooted, SomeHeaders, HeldDown, Gap;
    AncestorSelf(tree, genesis, x);
    Outset(db, tree, genesis, x, y);
    var a := a0;
    while a.number > n
      invariant a.number <= a0.number && (a == a0 || n <= a.number) && a == tree[Ancestor(tree, genesis, x, a.number)]
      invariant HeldDown(db, tree, genesis, x, a.number)
      decreases a.number
    {
      StepDown(db, tree, genesis, x, a.number);
      if (a.parent, a.number - 1) !in db {
        assert Gap(db, tree, genesis, x, y, a.number - 1) by { IsGap(db, tree, genesis, x, y, a.number - 1); }
        return None;
      }
      HeldNext(db, tree, genesis, x, a.number - 1);
      a := db[(a.parent, a.number - 1)];
    }
    return Some(a);
  }

  lemma IsGap(db: map<(Digest, int), Header>, tree: Headers, genesis: Digest, x: Digest, y: Digest, k: nat)
    requires Rooted(tree, genesis) && x in tree && y in tree && Differ(tree, genesis, x, y, k)
    requires (k < tree[x].number && (Ancestor(tree, genesis, x, k), k) !in db)
          || (k < tree[y].number && (Ancestor(tree, genesis, y, k), k) !in db)
    ensures Gap(db, tree, genesis, x, y, k)
  {}

  /** Walks both chains down, from the same height, to where they meet. */
  method Meet(hash: Header -> Digest, db: map<(Digest, int), Header>, a0: Header, b0: Header, ghost u: iset<Header>,
              ghost tree: Headers, ghost genesis: Digest, ghost x: Digest, ghost y: Digest)
    returns (r: Option<Header>, ghost m: nat)
    requires Rooted(tree, genesis) && SomeHeaders(db, tree) && Sealed(tree, hash, u) && x in tree && y in tree
    requires a0.number == b0.number <= tree[x].number && b0.number <= tree[y].number
    requires a0.number == tree[x].number || b0.number == tree[y].number
    requires a0 == tree[Ancestor(tree, genesis, x, a0.number)] && b0 == tree[Ancestor(tree, genesis, y, b0.number)]
    requires HeldDown(db, tree, genesis, x, a0.number) && HeldDown(db, tree, genesis, y, b0.number)
    ensures r.Some? ==> LastShared(tree, genesis, x, y, m) && r.value == tree[Ancestor(tree, genesis, x, m)]
    ensures r.None? <==> exists k: nat :: Gap(db, tree, genesis, x, y, k)
  {
    hide Rooted, SomeHeaders, Sealed, HeldDown, Gap;
    var a, b := a0, b0;
    HashOf(hash, u, tree, genesis, x, a.number);
    HashOf(hash, u, tree, genesis, y, a.number);
    while hash(a) != hash(b)
      invariant a.number == b.number <= tree[x].number && b.number <= tree[y].number
      invariant a == tree[Ancestor(tree, genesis, x, a.number)] && b == tree[Ancestor(tree, genesis, y, b.number)]
      invariant hash(a) == Ancestor(tree, genesis, x, a.number) && hash(b) == Ancestor(tree, genesis, y, a.number)
      invariant HeldDown(db, tree, genesis, x, a.number) && HeldDown(db, tree, genesis, y, a.number)
      invariant Differ(tree, genesis, x, y, a.number)
      decreases a.number
    {
      AncestorZero(tree, genesis, x);
      AncestorZero(tree, genesis, y);
      StepDown(db, tree, genesis, x, a.number);
      StepDown(db, tree, genesis, y, a.number);
      ghost var k := a.number - 1;
      assert Differ(tree, genesis, x, y, k);
      if (a.parent, a.number - 1) !in db || (b.parent, b.number - 1) !in db {
        IsGap(db, tree, genesis, x, y, k);
        return None, 0;
      }
      HeldNext(db, tree, genesis, x, k);
      HeldNext(db, tree, genesis, y, k);
      a, b := db[(a.parent, a.number - 1)], db[(b.parent, b.number - 1)];
      HashOf(hash, u, tree, genesis, x, a.number);
      HashOf(hash, u, tree, genesis, y, a.number);
    }
    NoGap(db, tree, genesis, x, y, a.number);
    return Some(a), a.number;
  }

  lemma HashOf(hash: Header -> Digest, u: iset<Header>, tree: Headers, genesis: Digest, d: Digest, k: nat)
    requires Rooted(tree, genesis) && Sealed(tree, hash, u) && d in tree && k <= tree[d].number
    ensures hash(tree[Ancestor(tree, genesis, d, k)]) == Ancestor(tree, genesis, d, k)
  {}
}
