/** Sums of the values of a finite map, and how they change when one entry changes. */
module Sums {
  ghost function MapSum<K(!new)>(w: map<K, int>): int
    decreases w.Keys
  {
    if w == map[] then 0
    else
      var k :| k in w;
      w[k] + MapSum(w - {k})
  }

  /** The order in which the entries are added does not matter. */
  lemma {:induction false} MapSumRemove<K(!new)>(w: map<K, int>, k: K)
    requires k in w
    ensures MapSum(w) == w[k] + MapSum(w - {k})
    decreases w.Keys
  {
    var j :| j in w && MapSum(w) == w[j] + MapSum(w - {j});
    if j != k {
      MapSumRemove(w - {j}, k);
      MapSumRemove(w - {k}, j);
      assert w - {j} - {k} == w - {k} - {j};
    }
  }

  lemma MapSumUpdate<K(!new)>(w: map<K, int>, k: K, v: int)
    ensures MapSum(w[k := v]) == MapSum(w) - (if k in w then w[k] else 0) + v
  {
    MapSumRemove(w[k := v], k);
    if k in w {
      MapSumRemove(w, k);
      assert w[k := v] - {k} == w - {k};
    } else {
      assert w[k := v] - {k} == w;
    }
  }

  /** Entries that are zero can be left out of a sum. */
  lemma {:induction false} MapSumZeros<K(!new)>(w: map<K, int>, u: map<K, int>)
    requires w.Keys <= u.Keys
    requires forall k :: k in u ==> u[k] == if k in w then w[k] else 0
    ensures MapSum(u) == MapSum(w)
    decreases u.Keys
  {
    if k :| k in u && k !in w {
      MapSumRemove(u, k);
      MapSumZeros(w, u - {k});
    } else {
      assert u == w;
    }
  }

  /** One entry grows by `d`; entries may appear, at zero before the growth. */
  lemma MapSumBump<K(!new)>(w: map<K, int>, u: map<K, int>, star: K, d: int)
    requires w.Keys <= u.Keys && star in u
    requires forall k :: k in u ==> u[k] == (if k in w then w[k] else 0) + if k == star then d else 0
    ensures MapSum(u) == MapSum(w) + d
  {
    var v := u[star := u[star] - d];
    MapSumZeros(w, v);
    MapSumUpdate(u, star, u[star] - d);
  }

  lemma {:induction false} MapSumBelow<K(!new)>(w: map<K, int>, u: map<K, int>)
    requires w.Keys == u.Keys && forall k :: k in w ==> w[k] <= u[k]
    ensures MapSum(w) <= MapSum(u)
    decreases w.Keys
  {
    if w != map[] {
      var k :| k in w;
      MapSumRemove(w, k);
      MapSumRemove(u, k);
      MapSumBelow(w - {k}, u - {k});
    } else {
      assert u == map[];
    }
  }
}
