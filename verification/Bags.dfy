/** Sums over the entries of a map keyed by digest: all references of a set of nodes together,
    and their total size. */
module Bags {
  import opened Bytes

  lemma Exchange<K(!new), V>(m: map<K, V>, d: K, e: K)
    ensures m - {e} - {d} == m - {d} - {e}
  {}

  ghost function Total(m: map<Digest, multiset<Digest>>): multiset<Digest>
    decreases |m|
  {
    if m == map[] then multiset{}
    else var d :| d in m; m[d] + Total(m - {d})
  }

  lemma {:induction false} TotalPick(m: map<Digest, multiset<Digest>>, d: Digest)
    requires d in m
    ensures Total(m) == m[d] + Total(m - {d})
    decreases |m|
  {
    var e :| e in m && Total(m) == m[e] + Total(m - {e});
    if e != d {
      TotalPick(m - {e}, d);
      TotalPick(m - {d}, e);
      Exchange(m, d, e);
    }
  }

  lemma {:induction false} TotalNone(m: map<Digest, multiset<Digest>>, p: Digest)
    requires forall c :: c in m ==> p !in m[c]
    ensures Total(m)[p] == 0
    decreases |m|
  {
    if m != map[] {
      var d :| d in m;
      TotalPick(m, d);
      TotalNone(m - {d}, p);
    }
  }

  ghost function Sum<K(!new)>(m: map<K, nat>): nat
    decreases |m|
  {
    if m == map[] then 0
    else var d :| d in m; m[d] + Sum(m - {d})
  }

  lemma {:induction false} SumPick<K(!new)>(m: map<K, nat>, d: K)
    requires d in m
    ensures Sum(m) == m[d] + Sum(m - {d})
    decreases |m|
  {
    var e :| e in m && Sum(m) == m[e] + Sum(m - {e});
    if e != d {
      SumPick(m - {e}, d);
      SumPick(m - {d}, e);
      Exchange(m, d, e);
    }
  }

  /** Setting one entry changes the sum by the difference. */
  lemma SumSet<K(!new)>(m: map<K, nat>, d: K, v: nat)
    ensures Sum(m[d := v]) == Sum(m) + v - (if d in m then m[d] else 0)
  {
    SumPick(m[d := v], d);
    assert m[d := v] - {d} == m - {d};
    if d in m { SumPick(m, d); } else { assert m - {d} == m; }
  }
}
