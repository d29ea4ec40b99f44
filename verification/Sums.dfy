/** Sums of the values of a finite map, whatever order the entries are taken in. */
module Sums {

  /** A missing entry counts as zero. */
  function Get<K>(m: map<K, int>, k: K): int {
    if k in m then m[k] else 0
  }

  ghost function SumMap<K>(m: map<K, int>): int
    decreases |m|
  {
    if m == map[] then 0
    else
      var k :| k in m;
      m[k] + SumMap(m - {k})
  }

  /** Any entry may be taken out first. */
  lemma {:induction false} SumMapTake<K>(m: map<K, int>, k: K)
    requires k in m
    ensures SumMap(m) == m[k] + SumMap(m - {k})
    decreases |m|
  {
    var x :| x in m && SumMap(m) == m[x] + SumMap(m - {x});
    if x != k {
      SumMapTake(m - {x}, k);
      SumMapTake(m - {k}, x);
      assert m - {x} - {k} == m - {k} - {x};
    }
  }

  lemma SumMapUpdate<K>(m: map<K, int>, k: K, value: int)
    ensures SumMap(m[k := value]) == SumMap(m) - (if k in m then m[k] else 0) + value
  {
    var updated := m[k := value];
    SumMapTake(updated, k);
    if k in m {
      SumMapTake(m, k);
      assert updated - {k} == m - {k};
    } else {
      assert updated - {k} == m;
    }
  }

  /** A reduction over the values, in whatever order they come. */
  method SumValues<K>(m: map<K, int>) returns (total: int)
    ensures total == SumMap(m)
  {
    total := 0;
    var left := m;
    while left != map[]
      invariant total + SumMap(left) == SumMap(m)
      decreases |left|
    {
      var k :| k in left;
      SumMapTake(left, k);
      total, left := total + left[k], left - {k};
    }
  }
}
