/** Transaction lists ordered by nonce (kernel/tx_list.go): a map, a heap of its keys and a
    lazily kept sorted copy that always agree. */
module TxList {
  import opened Bytes
  import NonceHeap
  import Sorting

  datatype Tx = Tx(nonce: Uint64, gasPrice: nat, gas: nat, value: nat, id: nat)

  function Cost(tx: Tx): nat { tx.gasPrice * tx.gas + tx.value }

  type Items = map<nat, Tx>

  ghost predicate Filed(items: Items) { forall n :: n in items ==> items[n].nonce == n }

  /** The heap holds exactly the keys of the map. */
  ghost predicate IndexOk(index: seq<nat>, items: Items) {
    NonceHeap.Heap(index) && multiset(index) == multiset(items.Keys)
  }

  /** The contents of the map in order of their nonces. */
  ghost predicate Sorted(c: seq<Tx>, items: Items) {
    && (forall i, j :: 0 <= i < j < |c| ==> c[i].nonce < c[j].nonce)
    && (forall i :: 0 <= i < |c| ==> c[i].nonce in items && items[c[i].nonce] == c[i])
    && (forall n :: n in items ==> items[n] in c)
  }

  /** There is only one such sequence. */
  lemma {:induction false} SortedUnique(c: seq<Tx>, d: seq<Tx>, items: Items)
    requires Filed(items) && Sorted(c, items) && Sorted(d, items)
    ensures c == d
    decreases |items|
  {
    hide Sorted, Filed, IsLeast;
    if items == map[] {
      First(c, items);
      First(d, items);
    } else {
      var m := LeastKey(items);
      SortedTail(c, items, m);
      SortedTail(d, items, m);
      FiledLess(items, m);
      SortedUnique(c[1..], d[1..], items - {m});
      SameTail(c, d);
    }
  }

  lemma SameTail(c: seq<Tx>, d: seq<Tx>)
    requires c != [] && d != [] && c[0] == d[0] && c[1..] == d[1..]
    ensures c == d
  {
    assert c == [c[0]] + c[1..] && d == [d[0]] + d[1..];
  }

  lemma First(c: seq<Tx>, items: Items)
    requires Sorted(c, items)
    ensures c != [] ==> c[0].nonce in items
  {}

  lemma FiledLess(items: Items, m: nat)
    requires Filed(items)
    ensures Filed(items - {m}) && (m in items ==> |items - {m}| < |items|)
  {
    assert (items - {m}).Keys == items.Keys - {m};
  }

  ghost predicate IsLeast(items: Items, m: nat) { m in items && forall n :: n in items ==> m <= n }

  lemma {:induction false} LeastKey(items: Items) returns (m: nat)
    requires items != map[]
    ensures IsLeast(items, m)
    decreases |items|
  {
    var n :| n in items;
    if items - {n} == map[] {
      assert items.Keys == (items - {n}).Keys + {n};
      m := n;
    } else {
      m := LeastKey(items - {n});
      if n < m { m := n; }
      assert forall k :: k in items ==> k == n || k in items - {n};
    }
  }

  lemma SortedTail(c: seq<Tx>, items: Items, m: nat)
    requires Filed(items) && Sorted(c, items) && IsLeast(items, m)
    ensures c != [] && c[0] == items[m] && Sorted(c[1..], items - {m})
  {
    assert items[m] in c;
    var i :| 0 <= i < |c| && c[i] == items[m];
    assert c[0].nonce in items;
    var rest := items - {m};
    forall n | n in rest ensures rest[n] in c[1..] {
      assert items[n] in c;
      var j :| 0 <= j < |c| && c[j] == items[n];
      assert c[1..][j - 1] == items[n];
    }
  }

  ghost predicate IsGreatest(items: Items, m: nat) { m in items && forall n :: n in items ==> n <= m }

  lemma SortedInit(c: seq<Tx>, items: Items, m: nat)
    requires Filed(items) && Sorted(c, items) && IsGreatest(items, m)
    ensures c != [] && c[|c| - 1] == items[m] && Sorted(c[..|c| - 1], items - {m})
  {
    assert items[m] in c;
    var i :| 0 <= i < |c| && c[i] == items[m];
    assert c[|c| - 1].nonce in items;
    var rest := items - {m};
    forall n | n in rest ensures rest[n] in c[..|c| - 1] {
      assert items[n] in c;
      var j :| 0 <= j < |c| && c[j] == items[n];
      assert c[..|c| - 1][j] == items[n];
    }
  }

  lemma SortedPush(c: seq<Tx>, items: Items, tx: Tx)
    requires Sorted(c, items) && forall n :: n in items ==> n < tx.nonce
    ensures Sorted(c + [tx], items[tx.nonce := tx])
  {
    var d, more := c + [tx], items[tx.nonce := tx];
    assert d[|c|] == tx;
    forall n | n in more ensures more[n] in d {
      if n != tx.nonce { assert items[n] in c; }
    }
  }

  /** The root of the heap is the least nonce. */
  lemma HeapLeast(index: seq<nat>, items: Items)
    requires IndexOk(index, items) && index != []
    ensures IsLeast(items, index[0]) && NonceHeap.Heap(index)
  {
    assert index[0] in multiset(index);
    forall n | n in items ensures index[0] <= n {
      assert n in multiset(index);
      var k :| 0 <= k < |index| && index[k] == n;
      NonceHeap.Least(index, k);
    }
  }

  lemma IndexEmpty(index: seq<nat>, items: Items)
    requires IndexOk(index, items)
    ensures index == [] <==> items == map[]
    ensures |index| == |items|
  {
    assert |multiset(index)| == |index|;
    assert |multiset(items.Keys)| == |items.Keys|;
  }

  lemma IndexDrop(index: seq<nat>, index': seq<nat>, items: Items, n: nat)
    requires IndexOk(index, items) && n in items && NonceHeap.Heap(index')
    requires multiset(index) == multiset(index') + multiset{n}
    ensures IndexOk(index', items - {n})
  {
    assert (items - {n}).Keys == items.Keys - {n};
    assert multiset(items.Keys - {n}) == multiset(items.Keys) - multiset{n};
  }

  // --- sorting ---

  ghost predicate Ascending<T>(xs: seq<T>, key: T -> nat) {
    forall i, j :: 0 <= i < j < |xs| ==> key(xs[i]) <= key(xs[j])
  }

  method SortBy<T(!new)>(xs: seq<T>, key: T -> nat) returns (r: seq<T>)
    ensures multiset(r) == multiset(xs) && Ascending(r, key)
  {
    r := Sorting.Sort(xs, (a, b) => key(a) < key(b));
  }

  /** The keys of a map, in some order. */
  method KeysOf(items: Items) returns (r: seq<nat>)
    ensures multiset(r) == multiset(items.Keys)
  {
    r := [];
    var todo := items.Keys;
    while todo != {}
      invariant todo <= items.Keys && multiset(r) == multiset(items.Keys - todo)
    {
      var n :| n in todo;
      assert items.Keys - (todo - {n}) == (items.Keys - todo) + {n};
      r := r + [n];
      todo := todo - {n};
    }
    assert items.Keys - {} == items.Keys;
  }

  // --- the sorted map ---

  function Under(items: Items, t: nat): Items { map n | n in items && n < t :: items[n] }

  function From(items: Items, t: nat): Items { map n | n in items && n >= t :: items[n] }

  class TxSortedMap {
    var items: Items
    var index: seq<nat>
    var cache: Option<seq<Tx>>

    ghost predicate Valid()
      reads this
    {
      Filed(items) && IndexOk(index, items) && (cache.Some? ==> Sorted(cache.value, items))
    }

    constructor ()
      ensures Valid() && items == map[]
    {
      items, index, cache := map[], [], None;
      new;
      assert items.Keys == {};
    }

    function Get(nonce: nat): Option<Tx>
      reads this
    {
      if nonce in items then Some(items[nonce]) else None
    }

    method Put(tx: Tx)
      requires Valid()
      modifies this
      ensures Valid() && items == old(items)[tx.nonce := tx]
    {
      if tx.nonce !in items {
        IndexAdd(index, items, tx);
        index := NonceHeap.Push(index, tx.nonce);
      } else {
        assert items[tx.nonce := tx].Keys == items.Keys;
      }
      items, cache := items[tx.nonce := tx], None;
    }

    /** Removes and returns, in order, everything below a nonce. */
    method Forward(threshold: nat) returns (removed: seq<Tx>)
      requires Valid()
      modifies this
      ensures Valid() && items == From(old(items), threshold) && Sorted(removed, Under(old(items), threshold))
      ensures cache.Some? <==> old(cache).Some?
    {
      hide Sorted, IndexOk, Filed, IsLeast, Parted, From, Under;
      removed := [];
      ghost var gone: Items := map[];
      StartForward(items, cache);
      while index != [] && index[0] < threshold
        invariant Filed(items) && IndexOk(index, items) && cache == old(cache)
        invariant cache.Some? ==> |removed| <= |cache.value| && Sorted(cache.value[|removed|..], items)
        invariant Sorted(removed, gone) && Parted(old(items), gone, items) && forall n :: n in gone ==> n < threshold
        decreases |index|
      {
        HeapLeast(index, items);
        ghost var before := index;
        var nonce;
        index, nonce := NonceHeap.Pop(index);
        IndexDrop(before, index, items, nonce);
        FiledAt(items, nonce);
        if cache.Some? { TailStep(cache.value, |removed|, items, nonce); }
        PartedStep(old(items), gone, items, nonce);
        SortedPush(removed, gone, items[nonce]);
        gone := gone[nonce := items[nonce]];
        removed := removed + [items[nonce]];
        FiledLess(items, nonce);
        items := items - {nonce};
      }
      if index != [] { HeapLeast(index, items); }
      IndexEmpty(index, items);
      LeastFrom(index, items, threshold);
      PartedAt(old(items), gone, items, threshold);
      if cache.Some? { cache := Some(cache.value[|removed|..]); }
    }

    /** Removes and returns everything that matches. */
    method Filter(filter: Tx -> bool) returns (removed: seq<Tx>)
      requires Valid()
      modifies this
      ensures Valid() && items == Without(old(items), filter) && Matches(removed, old(items), filter)
      ensures removed == [] ==> items == old(items)
    {
      hide Sorted, IndexOk, Filed, Matches, Without;
      ghost var all := items;
      items, removed := Sift(items, filter);
      SiftedIs(all, filter, removed);
      FiledSub(all, items);
      if |removed| > 0 {
        index := KeysOf(items);
        index := NonceHeap.Init(index);
        IsIndex(index, items);
        cache := None;
      }
    }

    /** Keeps the given number of lowest nonces; the others are returned, highest first. */
    method Cap(threshold: nat) returns (drops: seq<Tx>)
      requires Valid()
      modifies this
      ensures Valid() && |items| == (if |old(items)| <= threshold then |old(items)| else threshold)
      ensures Lowest(items, old(items)) && Dropped(drops, old(items), items)
    {
      hide Sorted, IndexOk, Filed, Lowest, Dropped, Ascending;
      KeepAll(items);
      if |items| <= threshold { return []; }
      IndexEmpty(index, items);
      ghost var before := index;
      index := SortBy(index, (n: nat) => n);
      SortedKeys(before, index, items);
      if cache.Some? { SortedSize(cache.value, items); }
      ghost var all := items;
      items, drops := DropTo(items, index, threshold, cache);
      index := index[..threshold];
      KeptBag(index, items);
      index := NonceHeap.Init(index);
      IsIndex(index, items);
      if cache.Some? { cache := Some(cache.value[..|cache.value| - |drops|]); }
    }

    /** Removes one nonce. */
    method Remove(nonce: nat) returns (ok: bool)
      requires Valid()
      modifies this
      ensures Valid() && (ok <==> nonce in old(items)) && items == old(items) - {nonce}
    {
      hide Sorted, IndexOk, Filed;
      if nonce !in items {
        assert items - {nonce} == items;
        return false;
      }
      var i := 0;
      InIndex(index, items, nonce);
      while index[i] != nonce
        invariant 0 <= i < |index| && exists k :: i <= k < |index| && index[k] == nonce
        decreases |index| - i
      {
        i := i + 1;
      }
      ghost var before := index;
      index := NonceHeap.Remove(index, i);
      IndexDrop(before, index, items, nonce);
      FiledLess(items, nonce);
      items := items - {nonce};
      cache := None;
      return true;
    }

    /** If the least nonce is not above `start`, removes and returns the run of nonces that
        begins with it. */
    method Ready(start: nat) returns (ready: seq<Tx>)
      requires Valid()
      modifies this
      ensures Valid()
      ensures ready == [] <==> forall n :: n in old(items) ==> n > start
      ensures ready == [] ==> items == old(items)
      ensures ready != [] ==> IsLeast(old(items), ready[0].nonce) && Run(ready, ready[0].nonce, old(items), items)
      ensures ready != [] ==> ready[0].nonce + |ready| !in items
    {
      hide Sorted, IndexOk, Filed, IsLeast, Run;
      IndexEmpty(index, items);
      if index != [] { HeapLeast(index, items); }
      LeastOver(index, items, start);
      if index == [] || index[0] > start { return []; }
      ready := [];
      var first, next := index[0], index[0];
      RunNone(items, first);
      while index != [] && index[0] == next
        invariant Filed(items) && IndexOk(index, items) && Run(ready, first, old(items), items)
        invariant next == first + |ready|
        invariant ready == [] ==> index != [] && index[0] == next && index == old(index) && items == old(items)
        invariant cache == old(cache) && IsLeast(old(items), first)
        decreases |index|
      {
        HeapLeast(index, items);
        FiledAt(items, next);
        RunStep(ready, first, old(items), items);
        ready := ready + [items[next]];
        ghost var before := index;
        var popped;
        index, popped := NonceHeap.Pop(index);
        IndexDrop(before, index, items, next);
        FiledLess(items, next);
        items := items - {next};
        next := next + 1;
      }
      IndexEmpty(index, items);
      if index != [] { HeapLeast(index, items); }
      RunEnd(ready, first, old(items), items, index);
      cache := None;
    }

    /** The contents in order, cached. */
    method Flatten() returns (txs: seq<Tx>)
      requires Valid()
      modifies this`cache
      ensures Valid() && Sorted(txs, items) && cache == Some(txs)
    {
      hide Sorted, IndexOk, Filed;
      if cache.None? {
        var keys := KeysOf(items);
        forall k | k in keys ensures k in items { assert k in multiset(keys); }
        var values := Values(keys, items);
        var c := SortBy(values, (tx: Tx) => tx.nonce);
        Flat(keys, values, c, items);
        cache := Some(c);
      }
      txs := cache.value;
    }
  }

  /** `all` is made of `low` and `high`, and everything in `low` comes first. */
  ghost predicate Parted(all: Items, low: Items, high: Items) {
    && (forall n :: n in all <==> n in low || n in high)
    && (forall n :: n in low ==> low[n] == all[n])
    && (forall n :: n in high ==> high[n] == all[n])
    && (forall n, m :: n in low && m in high ==> n < m)
  }

  lemma PartedStep(all: Items, low: Items, high: Items, m: nat)
    requires Parted(all, low, high) && IsLeast(high, m)
    ensures m in high && (forall n :: n in low ==> n < m) && Parted(all, low[m := high[m]], high - {m})
  {}

  lemma LeastFrom(index: seq<nat>, items: Items, t: nat)
    requires (index == [] <==> items == map[]) && (index != [] ==> IsLeast(items, index[0]) && index[0] >= t)
    ensures forall n :: n in items ==> n >= t
  {}

  lemma PartedAt(all: Items, low: Items, high: Items, t: nat)
    requires Parted(all, low, high) && (forall n :: n in low ==> n < t) && (forall n :: n in high ==> n >= t)
    ensures low == Under(all, t) && high == From(all, t)
  {}

  lemma FiledAt(items: Items, n: nat)
    requires Filed(items) && n in items
    ensures items[n].nonce == n
  {}

  lemma StartForward(items: Items, cache: Option<seq<Tx>>)
    ensures Sorted([], map[]) && Parted(items, map[], items)
    ensures cache.Some? ==> cache.value[0..] == cache.value
  {}

  lemma TailStep(c: seq<Tx>, k: nat, items: Items, m: nat)
    requires k <= |c| && Filed(items) && Sorted(c[k..], items) && IsLeast(items, m)
    ensures k + 1 <= |c| && Sorted(c[k + 1..], items - {m})
  {
    hide Sorted;
    SortedTail(c[k..], items, m);
    assert c[k..][1..] == c[k + 1..];
  }

  lemma IndexAdd(index: seq<nat>, items: Items, tx: Tx)
    requires IndexOk(index, items) && tx.nonce !in items
    ensures multiset(items[tx.nonce := tx].Keys) == multiset(index) + multiset{tx.nonce}
  {
    assert items[tx.nonce := tx].Keys == items.Keys + {tx.nonce};
  }

  // --- filtering ---

  function Without(items: Items, filter: Tx -> bool): Items { map n | n in items && !filter(items[n]) :: items[n] }

  /** Exactly the matching transactions, each once. */
  ghost predicate Matches(removed: seq<Tx>, items: Items, filter: Tx -> bool) {
    && (forall tx :: tx in removed <==> exists n :: n in items && items[n] == tx && filter(tx))
    && |removed| == |items| - |Without(items, filter)|
  }

  /** Goes through the map in some order and takes out what matches. */
  method Sift(all: Items, filter: Tx -> bool) returns (items: Items, removed: seq<Tx>)
    ensures items == Without(all, filter) && Matches(removed, all, filter)
  {
    items, removed := all, [];
    var todo := items.Keys;
    while todo != {}
      invariant todo <= items.Keys && items.Keys <= all.Keys && forall n :: n in items ==> items[n] == all[n]
      invariant forall n :: n in all && n !in todo ==> (n in items <==> !filter(all[n]))
      invariant forall tx :: tx in removed <==> exists n :: n in all && n !in items && all[n] == tx
      invariant |removed| + |items| == |all|
    {
      var n :| n in todo;
      if filter(items[n]) {
        TakeOne(all, items, removed, n);
        removed := removed + [items[n]];
        items := items - {n};
      }
      todo := todo - {n};
    }
    assert items == Without(all, filter);
  }

  lemma SiftedIs(all: Items, filter: Tx -> bool, removed: seq<Tx>)
    requires Matches(removed, all, filter)
    ensures removed == [] ==> Without(all, filter) == all
    ensures forall n :: n in Without(all, filter) ==> n in all && Without(all, filter)[n] == all[n]
  {
    forall n | n in all ensures removed == [] ==> n in Without(all, filter) { MatchIn(removed, all, filter, n); }
  }

  lemma TakeOne(all: Items, items: Items, removed: seq<Tx>, n: nat)
    requires items.Keys <= all.Keys && (forall k :: k in items ==> items[k] == all[k]) && n in items
    requires forall tx :: tx in removed <==> exists k :: k in all && k !in items && all[k] == tx
    ensures forall tx :: tx in removed + [items[n]] <==> exists k :: k in all && k !in items - {n} && all[k] == tx
    ensures |items - {n}| == |items| - 1
  {
    assert (items - {n}).Keys == items.Keys - {n};
    forall tx ensures tx in removed + [items[n]] <==> exists k :: k in all && k !in items - {n} && all[k] == tx {
      if tx in removed {
        var k :| k in all && k !in items && all[k] == tx;
        assert k !in items - {n};
      }
      if tx == items[n] { assert n in all && n !in items - {n} && all[n] == tx; }
    }
  }

  lemma FiledSub(all: Items, items: Items)
    requires Filed(all) && forall n :: n in items ==> n in all && items[n] == all[n]
    ensures Filed(items)
  {}

  lemma IsIndex(index: seq<nat>, items: Items)
    requires NonceHeap.Heap(index) && multiset(index) == multiset(items.Keys)
    ensures IndexOk(index, items)
  {}

  // --- capping ---

  /** Part of the map, below all the rest. */
  ghost predicate Lowest(items: Items, all: Items) {
    && (forall n :: n in items ==> n in all && items[n] == all[n])
    && (forall n, m :: n in all && n !in items && m in items ==> m < n)
  }

  /** Exactly what was taken out, highest first. */
  ghost predicate Dropped(drops: seq<Tx>, all: Items, items: Items) {
    && (forall i, j :: 0 <= i < j < |drops| ==> drops[i].nonce > drops[j].nonce)
    && (forall i :: 0 <= i < |drops| ==>
          drops[i].nonce in all && drops[i].nonce !in items && all[drops[i].nonce] == drops[i])
    && (forall n :: n in all && n !in items ==> all[n] in drops)
  }

  ghost predicate Strictly(s: seq<nat>) { forall i, j :: 0 <= i < j < |s| ==> s[i] < s[j] }

  ghost predicate Kept(s: seq<nat>, items: Items) { forall n :: n in items <==> n in s }

  /** Takes out the highest nonces one by one. */
  method DropTo(all: Items, index: seq<nat>, threshold: nat, ghost cache: Option<seq<Tx>>) returns (items: Items,
                drops: seq<Tx>)
    requires Filed(all) && Strictly(index) && Kept(index, all) && |index| == |all| && threshold <= |all|
    requires cache.Some? ==> |cache.value| == |all| && Sorted(cache.value, all)
    ensures Filed(items) && Kept(index[..threshold], items) && |items| == threshold
    ensures Lowest(items, all) && Dropped(drops, all, items) && |drops| == |all| - threshold
    ensures cache.Some? ==> Sorted(cache.value[..threshold], items)
  {
    hide Sorted, Filed, Lowest, Dropped, Strictly, Kept;
    items, drops := all, [];
    KeepAll(items);
    var size := |items|;
    assert index[..size] == index && (cache.Some? ==> cache.value[..size] == cache.value);
    while size > threshold
      invariant threshold <= size <= |index|
      invariant Filed(items) && Kept(index[..size], items) && |items| == size
      invariant Lowest(items, all) && Dropped(drops, all, items) && |drops| == |all| - size
      invariant cache.Some? ==> Sorted(cache.value[..size], items)
    {
      LastKey(index, size, items);
      if cache.Some? { InitStep(cache.value, size, items, index[size - 1]); }
      DropStep(drops, all, items, index[size - 1]);
      FiledLess(items, index[size - 1]);
      drops := drops + [items[index[size - 1]]];
      items := items - {index[size - 1]};
      size := size - 1;
    }
  }

  lemma KeepAll(items: Items)
    ensures Lowest(items, items) && Dropped([], items, items)
  {}

  lemma SortedKeys(before: seq<nat>, index: seq<nat>, items: Items)
    requires IndexOk(before, items) && multiset(index) == multiset(before) && Ascending(index, (n: nat) => n)
    ensures Strictly(index) && Kept(index, items) && |index| == |items|
  {
    IndexEmpty(before, items);
    assert |index| == |multiset(index)| == |before|;
    forall i, j | 0 <= i < j < |index| ensures index[i] < index[j] {
      if index[i] == index[j] { Twice(index, i, j); }
    }
    forall n ensures n in items <==> n in index {
      assert n in index <==> n in multiset(index);
    }
  }

  lemma Twice<T>(s: seq<T>, i: nat, j: nat)
    requires i < j < |s| && s[i] == s[j]
    ensures multiset(s)[s[i]] >= 2
  {
    assert s == s[..i] + [s[i]] + s[i + 1..j] + [s[j]] + s[j + 1..];
  }

  lemma {:induction false} SortedSize(c: seq<Tx>, items: Items)
    requires Filed(items) && Sorted(c, items)
    ensures |c| == |items|
    decreases |items|
  {
    hide Sorted, Filed, IsLeast;
    if items == map[] {
      First(c, items);
    } else {
      var m := LeastKey(items);
      SortedTail(c, items, m);
      FiledLess(items, m);
      LessSize(items, m);
      SortedSize(c[1..], items - {m});
    }
  }

  lemma LessSize(items: Items, m: nat)
    requires IsLeast(items, m) || m in items
    ensures m in items && |items - {m}| == |items| - 1
  {
    assert (items - {m}).Keys == items.Keys - {m};
  }

  lemma LastKey(s: seq<nat>, size: nat, items: Items)
    requires 0 < size <= |s| && Strictly(s) && Kept(s[..size], items) && |items| == size
    ensures IsGreatest(items, s[size - 1]) && Kept(s[..size - 1], items - {s[size - 1]})
    ensures |items - {s[size - 1]}| == size - 1
  {
    hide Strictly;
    var m := s[size - 1];
    var t := s[..size - 1];
    assert s[..size] == t + [m];
    StrictPrefix(s, size);
    PushKeys(s[..size], t, m);
    LastKept(s[..size], t, m, items);
    LessSize(items, m);
  }

  lemma StrictPrefix(s: seq<nat>, size: nat)
    requires size <= |s| && Strictly(s)
    ensures Strictly(s[..size])
  {}

  lemma LastKept(a: seq<nat>, b: seq<nat>, m: nat, items: Items)
    requires Kept(a, items) && (forall n :: n in a <==> n in b || n == m) && (forall n :: n in b ==> n < m)
    ensures IsGreatest(items, m) && Kept(b, items - {m})
  {
    assert m in a;
  }

  lemma PushKeys(a: seq<nat>, b: seq<nat>, m: nat)
    requires a == b + [m] && Strictly(a)
    ensures forall n :: n in a <==> n in b || n == m
    ensures forall n :: n in b ==> n < m
  {
    forall n | n in b ensures n < m {
      var i :| 0 <= i < |b| && b[i] == n;
      assert a[i] == n && a[|b|] == m;
    }
  }

  lemma InitStep(c: seq<Tx>, size: nat, items: Items, m: nat)
    requires 0 < size <= |c| && Filed(items) && Sorted(c[..size], items) && IsGreatest(items, m)
    ensures Sorted(c[..size - 1], items - {m})
  {
    hide Sorted;
    SortedInit(c[..size], items, m);
    assert c[..size][..size - 1] == c[..size - 1];
  }

  lemma DropStep(drops: seq<Tx>, all: Items, items: Items, m: nat)
    requires Filed(items) && Lowest(items, all) && Dropped(drops, all, items) && IsGreatest(items, m)
    ensures Lowest(items - {m}, all) && Dropped(drops + [items[m]], all, items - {m})
  {
    var d, rest := drops + [items[m]], items - {m};
    assert d[|drops|] == items[m];
    forall n | n in all && n !in rest ensures all[n] in d {
      if n != m { assert all[n] in drops; }
    }
  }

  lemma {:induction false} KeptBag(s: seq<nat>, items: Items)
    requires Strictly(s) && Kept(s, items)
    ensures multiset(s) == multiset(items.Keys)
    decreases |s|
  {
    hide Strictly;
    if s == [] {
      assert items.Keys == {};
    } else {
      var n := |s| - 1;
      var b, m := s[..n], s[n];
      assert s == b + [m];
      StrictPrefix(s, n);
      PushKeys(s, b, m);
      LastKept(s, b, m, items);
      KeptBag(b, items - {m});
      BagLast(items, m);
    }
  }

  lemma BagLast(items: Items, m: nat)
    requires m in items
    ensures multiset(items.Keys) == multiset((items - {m}).Keys) + multiset{m}
  {
    assert (items - {m}).Keys == items.Keys - {m};
  }

  lemma InIndex(index: seq<nat>, items: Items, n: nat)
    requires IndexOk(index, items) && n in items
    ensures NonceHeap.Heap(index) && exists k :: 0 <= k < |index| && index[k] == n
  {
    assert n in multiset(index);
  }

  // --- taking what is ready ---

  lemma LeastOver(index: seq<nat>, items: Items, start: nat)
    requires (index == [] <==> items == map[]) && (index != [] ==> IsLeast(items, index[0]))
    ensures (index == [] || index[0] > start) <==> forall n :: n in items ==> n > start
  {}

  /** Consecutive nonces from `first` on, taken out of `all`. */
  ghost predicate Run(ready: seq<Tx>, first: nat, all: Items, items: Items) {
    && (forall i :: 0 <= i < |ready| ==>
          ready[i].nonce == first + i && ready[i].nonce in all && all[ready[i].nonce] == ready[i])
    && (forall n :: n in items <==> n in all && !(first <= n < first + |ready|))
    && (forall n :: n in items ==> items[n] == all[n])
  }

  lemma RunNone(items: Items, first: nat)
    ensures Run([], first, items, items)
  {}

  lemma RunStep(ready: seq<Tx>, first: nat, all: Items, items: Items)
    requires Run(ready, first, all, items) && first + |ready| in items
    requires items[first + |ready|].nonce == first + |ready|
    ensures Run(ready + [items[first + |ready|]], first, all, items - {first + |ready|})
  {
    var n := first + |ready|;
    var r := ready + [items[n]];
    forall i | 0 <= i < |r| ensures r[i].nonce == first + i && r[i].nonce in all && all[r[i].nonce] == r[i] {
      if i < |ready| { assert r[i] == ready[i]; }
    }
  }

  lemma RunEnd(ready: seq<Tx>, first: nat, all: Items, items: Items, index: seq<nat>)
    requires Run(ready, first, all, items) && IsLeast(all, first) && ready != []
    requires (index == [] <==> items == map[])
    requires (index != [] ==> IsLeast(items, index[0]) && index[0] != first + |ready|)
    ensures ready[0].nonce == first && first + |ready| !in items
  {
    assert ready[0].nonce == first + 0;
  }

  // --- flattening ---

  method Values(keys: seq<nat>, items: Items) returns (r: seq<Tx>)
    requires forall k :: k in keys ==> k in items
    ensures |r| == |keys| && forall i :: 0 <= i < |r| ==> r[i] == items[keys[i]]
  {
    r := [];
    for i := 0 to |keys|
      invariant |r| == i && forall j :: 0 <= j < i ==> r[j] == items[keys[j]]
    {
      r := r + [items[keys[i]]];
    }
  }

  lemma {:induction false} TwoOf<T>(s: seq<T>, x: T) returns (a: nat, b: nat)
    requires multiset(s)[x] >= 2
    ensures a < b < |s| && s[a] == x && s[b] == x
    decreases |s|
  {
    var n := |s| - 1;
    assert s == s[..n] + [s[n]];
    if s[n] == x {
      assert x in multiset(s[..n]);
      a :| 0 <= a < n && s[..n][a] == x;
      b := n;
    } else {
      a, b := TwoOf(s[..n], x);
    }
  }

  lemma Flat(keys: seq<nat>, raw: seq<Tx>, c: seq<Tx>, items: Items)
    requires Filed(items) && multiset(keys) == multiset(items.Keys) && |raw| == |keys|
    requires (forall k :: k in keys ==> k in items) && (forall i :: 0 <= i < |raw| ==> raw[i] == items[keys[i]])
    requires multiset(c) == multiset(raw) && Ascending(c, (tx: Tx) => tx.nonce)
    ensures Sorted(c, items)
  {
    forall i | 0 <= i < |c| ensures c[i].nonce in items && items[c[i].nonce] == c[i] {
      assert c[i] in multiset(c);
      var k :| 0 <= k < |raw| && raw[k] == c[i];
      assert keys[k] in keys;
    }
    forall i, j | 0 <= i < j < |c| ensures c[i].nonce < c[j].nonce {
      if c[i].nonce == c[j].nonce {
        Twice(c, i, j);
        var a, b := TwoOf(raw, c[i]);
        Twice(keys, a, b);
      }
    }
    forall n | n in items ensures items[n] in c {
      assert n in multiset(keys);
      var k :| 0 <= k < |keys| && keys[k] == n;
      assert raw[k] in multiset(raw);
    }
  }

  // --- the list of an account ---

  /** No nonce is missing between two that are there. */
  ghost predicate GapFree(items: Items) { forall a, b, c :: a in items && c in items && a < b < c ==> b in items }

  ghost predicate Capped(items: Items, cost: nat, gas: nat) {
    forall n :: n in items ==> Cost(items[n]) <= cost && items[n].gas <= gas
  }

  predicate Over(tx: Tx, costLimit: nat, gasLimit: nat) { Cost(tx) > costLimit || tx.gas > gasLimit }

  function TooMuch(costLimit: nat, gasLimit: nat): Tx -> bool { (tx: Tx) => Over(tx, costLimit, gasLimit) }

  function After(lowest: nat): Tx -> bool { (tx: Tx) => tx.nonce > lowest }

  class TxList {
    const strict: bool
    const txs: TxSortedMap
    var costcap: nat
    var gascap: nat

    /** No transaction is above the caps. */
    ghost predicate Valid()
      reads this, txs
    {
      txs.Valid() && Capped(txs.items, costcap, gascap)
    }

    constructor (strict: bool)
      ensures Valid() && txs.items == map[] && this.strict == strict && fresh(txs)
    {
      this.strict, costcap, gascap := strict, 0, 0;
      txs := new TxSortedMap();
    }

    /** Adds a transaction, or replaces one with the same nonce that it outbids far enough. */
    method Add(tx: Tx, priceBump: nat) returns (ok: bool, old_: Option<Tx>)
      requires Valid()
      modifies this, txs
      ensures Valid()
      ensures ok <==> tx.nonce !in old(txs.items) || Outbids(tx.gasPrice, old(txs.items)[tx.nonce].gasPrice, priceBump)
      ensures ok ==> txs.items == old(txs.items)[tx.nonce := tx] && old_ == old(txs.Get(tx.nonce))
      ensures !ok ==> txs.items == old(txs.items) && old_ == None
    {
      hide Sorted, IndexOk, Filed;
      old_ := txs.Get(tx.nonce);
      if old_.Some? {
        var threshold := old_.value.gasPrice * (100 + priceBump) / 100;
        if old_.value.gasPrice >= tx.gasPrice || threshold > tx.gasPrice { return false, None; }
      }
      txs.Put(tx);
      if costcap < Cost(tx) { costcap := Cost(tx); }
      if gascap < tx.gas { gascap := tx.gas; }
      ok := true;
    }

    method Forward(threshold: nat) returns (removed: seq<Tx>)
      requires Valid()
      modifies txs
      ensures Valid() && txs.items == From(old(txs.items), threshold)
      ensures Sorted(removed, Under(old(txs.items), threshold))
      ensures old(GapFree(txs.items)) ==> GapFree(txs.items)
    {
      hide Sorted, IndexOk, Filed;
      removed := txs.Forward(threshold);
    }

    /** Removes what costs or burns too much and, in a strict list, everything after the first
        of these. */
    method Filter(costLimit: nat, gasLimit: nat) returns (removed: seq<Tx>, invalids: seq<Tx>)
      requires Valid()
      modifies this, txs
      ensures Valid() && Capped(txs.items, costLimit, gasLimit)
      ensures Matches(removed, old(txs.items), TooMuch(costLimit, gasLimit))
      ensures !strict || removed == [] ==>
        invalids == [] && txs.items == Without(old(txs.items), TooMuch(costLimit, gasLimit))
      ensures strict && removed != [] ==> exists lowest: nat ::
        && (exists r :: r in removed && r.nonce == lowest) && (forall r :: r in removed ==> lowest <= r.nonce)
        && txs.items == Without(Without(old(txs.items), TooMuch(costLimit, gasLimit)), After(lowest))
        && Matches(invalids, Without(old(txs.items), TooMuch(costLimit, gasLimit)), After(lowest))
      ensures strict && old(GapFree(txs.items)) ==> GapFree(txs.items)
    {
      hide Sorted, IndexOk, Filed, Matches, Without, Over;
      if costcap <= costLimit && gascap <= gasLimit {
        NoneOver(txs.items, costcap, gascap, costLimit, gasLimit);
        return [], [];
      }
      ghost var all := txs.items;
      removed := txs.Filter(TooMuch(costLimit, gasLimit));
      costcap, gascap := costLimit, gasLimit;
      CappedNow(all, costLimit, gasLimit);
      invalids := [];
      if strict && |removed| > 0 {
        var lowest := LowestOf(removed);
        ghost var mid := txs.items;
        invalids := txs.Filter(After(lowest));
        CappedSub(mid, After(lowest), costLimit, gasLimit);
        CutGapFree(all, removed, lowest, costLimit, gasLimit);
      }
      WithoutAll(all, removed, TooMuch(costLimit, gasLimit));
    }

    method Cap(threshold: nat) returns (drops: seq<Tx>)
      requires Valid()
      modifies txs
      ensures Valid() && |txs.items| == (if |old(txs.items)| <= threshold then |old(txs.items)| else threshold)
      ensures Lowest(txs.items, old(txs.items)) && Dropped(drops, old(txs.items), txs.items)
      ensures old(GapFree(txs.items)) ==> GapFree(txs.items)
    {
      hide Sorted, IndexOk, Filed, Dropped;
      drops := txs.Cap(threshold);
    }

    /** Removes a transaction and, in a strict list, everything after it. */
    method Remove(tx: Tx) returns (ok: bool, invalids: seq<Tx>)
      requires Valid()
      modifies txs
      ensures Valid() && (ok <==> tx.nonce in old(txs.items))
      ensures !ok ==> txs.items == old(txs.items) && invalids == []
      ensures ok && strict ==>
        var rest := old(txs.items) - {tx.nonce};
        txs.items == Without(rest, After(tx.nonce)) && Matches(invalids, rest, After(tx.nonce))
      ensures ok && !strict ==> txs.items == old(txs.items) - {tx.nonce} && invalids == []
      ensures strict && old(GapFree(txs.items)) ==> GapFree(txs.items)
    {
      hide Sorted, IndexOk, Matches, Without;
      ghost var all := txs.items;
      ok := txs.Remove(tx.nonce);
      invalids := [];
      if ok && strict {
        invalids := txs.Filter(After(tx.nonce));
        CappedSub(all - {tx.nonce}, After(tx.nonce), costcap, gascap);
        PrefixGapFree(all, tx.nonce);
      } else {
        assert !ok ==> txs.items == all;
      }
    }

    method Ready(start: nat) returns (ready: seq<Tx>)
      requires Valid()
      modifies txs
      ensures Valid() && (ready == [] <==> forall n :: n in old(txs.items) ==> n > start)
      ensures ready == [] ==> txs.items == old(txs.items)
      ensures ready != [] ==>
        IsLeast(old(txs.items), ready[0].nonce) && Run(ready, ready[0].nonce, old(txs.items), txs.items)
      ensures ready != [] ==> ready[0].nonce + |ready| !in txs.items
      ensures ready != [] && old(GapFree(txs.items)) ==> txs.items == map[]
    {
      hide Sorted, IndexOk, Filed;
      ghost var all := txs.items;
      ready := txs.Ready(start);
      if ready != [] { RunTakesAll(ready, ready[0].nonce, all, txs.items); }
    }

    method Flatten() returns (r: seq<Tx>)
      requires Valid()
      modifies txs
      ensures Valid() && Sorted(r, txs.items) && txs.items == old(txs.items)
    {
      hide Sorted, IndexOk, Filed;
      r := txs.Flatten();
    }
  }

  predicate Outbids(price: nat, than: nat, bump: nat) { price > than && price >= than * (100 + bump) / 100 }

  /** The early exit: below the caps there is nothing to remove. */
  lemma NoneOver(items: Items, costcap: nat, gascap: nat, costLimit: nat, gasLimit: nat)
    requires Capped(items, costcap, gascap) && costcap <= costLimit && gascap <= gasLimit
    ensures Matches([], items, TooMuch(costLimit, gasLimit)) && Without(items, TooMuch(costLimit, gasLimit)) == items
    ensures Capped(items, costLimit, gasLimit)
  {
    assert Without(items, TooMuch(costLimit, gasLimit)) == items;
  }

  lemma CappedNow(all: Items, costLimit: nat, gasLimit: nat)
    ensures Capped(Without(all, TooMuch(costLimit, gasLimit)), costLimit, gasLimit)
  {}

  lemma CappedSub(items: Items, filter: Tx -> bool, cost: nat, gas: nat)
    requires Capped(items, cost, gas)
    ensures Capped(Without(items, filter), cost, gas)
  {}

  lemma MatchIn(removed: seq<Tx>, all: Items, filter: Tx -> bool, n: nat)
    requires Matches(removed, all, filter) && n in all
    ensures filter(all[n]) ==> all[n] in removed
  {}

  lemma WithoutAll(all: Items, removed: seq<Tx>, filter: Tx -> bool)
    requires Matches(removed, all, filter)
    ensures removed == [] ==> Without(all, filter) == all
  {
    SiftedIs(all, filter, removed);
  }

  method LowestOf(txs: seq<Tx>) returns (lowest: Uint64)
    requires txs != []
    ensures (exists r :: r in txs && r.nonce == lowest) && (forall r :: r in txs ==> lowest <= r.nonce)
  {
    lowest := TWO64 - 1;
    for i := 0 to |txs|
      invariant forall j :: 0 <= j < i ==> lowest <= txs[j].nonce
      invariant lowest == TWO64 - 1 || exists j :: 0 <= j < i && txs[j].nonce == lowest
    {
      if lowest > txs[i].nonce { lowest := txs[i].nonce; }
    }
    assert txs[0] in txs && lowest <= txs[0].nonce;
  }

  /** Cutting everything from the first removed nonce on leaves no gap. */
  lemma CutGapFree(all: Items, removed: seq<Tx>, lowest: nat, costLimit: nat, gasLimit: nat)
    requires Filed(all) && Matches(removed, all, TooMuch(costLimit, gasLimit))
    requires (forall r :: r in removed ==> lowest <= r.nonce)
    ensures GapFree(all) ==> GapFree(Without(Without(all, TooMuch(costLimit, gasLimit)), After(lowest)))
  {
    var over := TooMuch(costLimit, gasLimit);
    var rest := Without(Without(all, over), After(lowest));
    if GapFree(all) {
      forall a, b, c | a in rest && c in rest && a < b < c ensures b in rest {
        assert b in all && all[b].nonce == b && all[c].nonce == c;
        MatchIn(removed, all, over, b);
      }
    }
  }

  lemma PrefixGapFree(all: Items, n: nat)
    requires Filed(all) && n in all
    ensures GapFree(all) ==> GapFree(Without(all - {n}, After(n)))
  {}

  /** From a list without gaps everything is ready. */
  lemma RunTakesAll(ready: seq<Tx>, first: nat, all: Items, items: Items)
    requires Run(ready, first, all, items) && IsLeast(all, first) && ready != [] && first + |ready| !in items
    ensures GapFree(all) ==> items == map[]
  {
    if GapFree(all) {
      forall n ensures n !in items {
        assert first in all;
        assert n in items ==> first < first + |ready| < n || n == first + |ready|;
      }
    }
  }
}
