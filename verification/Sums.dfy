/** Sums over the values of a map, in whatever order it is ranged over. */
module Sums {

  ghost function Sum<T>(m: map<T, real>): real
    decreases |m|
  {
    if m == map[] then 0.0
    else
      var k :| k in m;
      assert |m - {k}| < |m| by { FewerKeys(m, k); }
      m[k] + Sum(m - {k})
  }

  lemma FewerKeys<T, U>(m: map<T, U>, k: T)
    requires k in m
    ensures |m - {k}| == |m| - 1
  {
    assert (m - {k}).Keys == m.Keys - {k};
  }

  /** The order does not matter: any key can be taken first. */
  lemma {:induction false} SumTake<T>(m: map<T, real>, k: T)
    requires k in m
    ensures Sum(m) == m[k] + Sum(m - {k})
    decreases |m|
  {
    var j :| j in m && Sum(m) == m[j] + Sum(m - {j});
    if j != k {
      FewerKeys(m, j);
      FewerKeys(m, k);
      SumTake(m - {j}, k);
      SumTake(m - {k}, j);
      assert m - {j} - {k} == m - {k} - {j};
    }
  }

  function Or<T>(m: map<T, real>, k: T): real {
    if k in m then m[k] else 0.0
  }

  /** Changing one value changes the sum by as much. */
  lemma SumPut<T>(m: map<T, real>, k: T, v: real)
    ensures Sum(m[k := v]) == Sum(m) - Or(m, k) + v
  {
    SumTake(m[k := v], k);
    assert m[k := v] - {k} == m - {k};
    if k in m {
      SumTake(m, k);
    } else {
      assert m - {k} == m;
    }
  }

  /** Entries worth nothing add nothing. */
  lemma {:induction false} SumExtend<T>(m: map<T, real>, n: map<T, real>)
    requires m.Keys <= n.Keys && forall k | k in n :: n[k] == Or(m, k)
    ensures Sum(n) == Sum(m)
    decreases |n|
  {
    if n == map[] {
      assert m == map[];
    } else {
      var k :| k in n;
      SumTake(n, k);
      FewerKeys(n, k);
      if k in m {
        SumTake(m, k);
        SumExtend(m - {k}, n - {k});
      } else {
        SumExtend(m, n - {k});
      }
    }
  }

  lemma {:induction false} SumJoin<T>(m: map<T, real>, n: map<T, real>)
    requires m.Keys !! n.Keys
    ensures Sum(m + n) == Sum(m) + Sum(n)
    decreases |n|
  {
    hide Sum;
    if n == map[] {
      assert m + n == m;
      SumNone<T>();
    } else {
      var k :| k in n;
      FewerKeys(n, k);
      SumTake(n, k);
      SumTake(m + n, k);
      JoinLess(m, n, k);
      SumJoin(m, n - {k});
    }
  }

  lemma JoinLess<T>(m: map<T, real>, n: map<T, real>, k: T)
    requires m.Keys !! n.Keys && k in n
    ensures k in m + n && (m + n)[k] == n[k] && m + n - {k} == m + (n - {k}) && m.Keys !! (n - {k}).Keys
  {}

  lemma SumNone<T>()
    ensures Sum<T>(map[]) == 0.0
  {}

  lemma {:induction false} SumZeros<T>(m: map<T, real>)
    requires forall k | k in m :: m[k] == 0.0
    ensures Sum(m) == 0.0
  {
    SumExtend(map[], m);
  }
}
