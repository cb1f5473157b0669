/** Sums over the values of a map, for tables and breakdowns that must add up to one total. */
module MapSums {
  import opened Prelude

  /** The value at `k`, zero when there is none: `get(&k).copied().unwrap_or(0)`. */
  function Get<K(==)>(m: map<K, int>, k: K): int {
    if k in m then m[k] else 0
  }

  /** `*m.entry(k).or_insert(0) += v`. */
  function AddTo<K(==)>(m: map<K, int>, k: K, v: int): map<K, int> {
    m[k := Get(m, k) + v]
  }

  lemma {:induction false} MapByPoints<K, V>(m: map<K, V>, n: map<K, V>, k: K)
    requires n.Keys == m.Keys + {k}
    requires forall j :: j in n && j != k ==> j in m && n[j] == m[j]
    ensures n == m[k := n[k]]
  {
  }

  ghost function SumMap<K>(m: map<K, int>): int {
    if m == map[] then 0
    else
      var k :| k in m;
      m[k] + SumMap(m - {k})
  }

  /** The sum does not depend on which key is taken out first. */
  lemma {:induction false} SumMapRemove<K>(m: map<K, int>, k: K)
    requires k in m
    ensures SumMap(m) == m[k] + SumMap(m - {k})
    decreases |m|
  {
    var j :| j in m && SumMap(m) == m[j] + SumMap(m - {j});
    if j != k {
      SumMapRemove(m - {j}, k);
      SumMapRemove(m - {k}, j);
      assert m - {j} - {k} == m - {k} - {j};
    }
  }

  lemma {:induction false} SumMapAddTo<K>(m: map<K, int>, k: K, v: int)
    ensures SumMap(AddTo(m, k, v)) == SumMap(m) + v
  {
    var n := AddTo(m, k, v);
    SumMapRemove(n, k);
    assert n - {k} == m - {k};
    if k in m {
      SumMapRemove(m, k);
    } else {
      assert m - {k} == m;
    }
  }

  /** Only the values read through `Get` matter: absent keys and zeros are the same. */
  lemma {:induction false} SumMapExtensional<K>(m: map<K, int>, n: map<K, int>)
    requires forall k :: k in m || k in n ==> Get(m, k) == Get(n, k)
    ensures SumMap(m) == SumMap(n)
    decreases |m|
  {
    if m == map[] {
      SumMapZero(n);
    } else {
      var k :| k in m;
      SumMapRemove(m, k);
      var n' := if k in n then n - {k} else n;
      if k in n { SumMapRemove(n, k); }
      assert forall j :: j in m - {k} ==> Get(m - {k}, j) == Get(m, j);
      assert forall j :: j in n' ==> Get(n', j) == Get(n, j);
      SumMapExtensional(m - {k}, n');
    }
  }

  lemma {:induction false} SumMapZero<K>(m: map<K, int>)
    requires forall k :: k in m ==> m[k] == 0
    ensures SumMap(m) == 0
    decreases |m|
  {
    if m != map[] {
      var k :| k in m;
      SumMapRemove(m, k);
      SumMapZero(m - {k});
    }
  }

  /** If the entries of `m` are those of `a` and `b` added up, so is its sum. */
  lemma {:induction false} SumMapSplit<K(!new)>(m: map<K, int>, a: map<K, int>, b: map<K, int>)
    requires forall k :: Get(m, k) == Get(a, k) + Get(b, k)
    ensures SumMap(m) == SumMap(a) + SumMap(b)
    decreases |b|
  {
    if b == map[] {
      SumMapExtensional(m, a);
    } else {
      var k :| k in b;
      var m' := AddTo(m, k, -b[k]);
      var b' := b - {k};
      forall j ensures Get(m', j) == Get(a, j) + Get(b', j) {
        assert Get(m, j) == Get(a, j) + Get(b, j);
      }
      SumMapSplit(m', a, b');
      SumMapAddTo(m, k, -b[k]);
      SumMapRemove(b, k);
    }
  }

  /** The entries of `m` whose key falls in group `d`. */
  function Where<K, D(==)>(m: map<K, int>, group: K -> D, d: D): map<K, int> {
    map k | k in m && group(k) == d :: m[k]
  }

  /** A table summed group by group. */
  lemma {:induction false} SumByGroup<K, D(!new)>(m: map<K, int>, group: K -> D, sums: map<D, int>)
    requires forall d :: Get(sums, d) == SumMap(Where(m, group, d))
    ensures SumMap(sums) == SumMap(m)
    decreases |m|
  {
    if m == map[] {
      forall d | d in sums ensures sums[d] == 0 { assert Where(m, group, d) == map[]; }
      SumMapZero(sums);
    } else {
      var k :| k in m;
      var rest, less := m - {k}, AddTo(sums, group(k), -m[k]);
      forall d ensures Get(less, d) == SumMap(Where(rest, group, d)) {
        assert Get(sums, d) == SumMap(Where(m, group, d));
        WhereWithout(m, group, k, d);
      }
      SumByGroup(rest, group, less);
      SumMapAddTo(sums, group(k), -m[k]);
      SumMapRemove(m, k);
    }
  }

  lemma {:induction false} WhereWithout<K, D>(m: map<K, int>, group: K -> D, k: K, d: D)
    requires k in m
    ensures SumMap(Where(m, group, d)) == SumMap(Where(m - {k}, group, d)) + if d == group(k) then m[k] else 0
  {
    if d == group(k) {
      SumMapRemove(Where(m, group, d), k);
      assert Where(m, group, d) - {k} == Where(m - {k}, group, d);
    } else {
      assert Where(m, group, d) == Where(m - {k}, group, d);
    }
  }

  /** The values of `m` listed along a sequence of keys. */
  function Along<K(==)>(keys: seq<K>, m: map<K, int>): (r: seq<int>)
    ensures |r| == |keys|
  {
    seq(|keys|, i requires 0 <= i < |keys| => Get(m, keys[i]))
  }

  /** A list of distinct keys that covers the map lists its whole sum, once. */
  lemma {:induction false} SumAlong<K>(keys: seq<K>, m: map<K, int>)
    requires Distinct(keys)
    requires forall k :: k in m ==> k in keys
    ensures Sum(Along(keys, m)) == SumMap(m)
  {
    if keys == [] {
      assert m == map[];
    } else {
      var n, k := |keys| - 1, keys[|keys| - 1];
      var rest := m - {k};
      forall j | j in rest ensures j in keys[..n] {
        assert j in keys && j != k;
      }
      SumAlong(keys[..n], rest);
      assert Along(keys, m)[..n] == Along(keys[..n], rest) by {
        forall i | 0 <= i < n ensures Get(m, keys[i]) == Get(rest, keys[i]) {
          assert keys[i] != k;
        }
      }
      if k in m { SumMapRemove(m, k); } else { assert rest == m; }
    }
  }
}
