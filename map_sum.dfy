/**
 * Sums over the records a contract keeps in persistent storage, keyed by
 * address (or address and pool). The contracts keep running totals of such
 * sums (`TotalStaked`, `TotalLPStaked`, `TotalVotingPower`) and of vote
 * tallies; this module supplies the sum that those counters must equal and
 * how it changes when one record is written or removed.
 */
module MapSum {

  /** Some key of a non-empty map; the sum below does not depend on which. */
  ghost function Pick<K, V>(m: map<K, V>): (k: K)
    requires m != map[]
    ensures k in m
  {
    var k :| k in m; k
  }

  /** The sum of `f` over the values of `m`. */
  ghost function Sum<K, V>(m: map<K, V>, f: V -> int): int
    decreases m.Keys
  {
    if m == map[] then 0
    else
      var k := Pick(m);
      f(m[k]) + Sum(m - {k}, f)
  }

  /** Any record can be split off the sum, whichever key Pick chose. */
  lemma {:induction false} SumRemove<K, V>(m: map<K, V>, k: K, f: V -> int)
    requires k in m
    ensures Sum(m, f) == f(m[k]) + Sum(m - {k}, f)
    decreases m.Keys
  {
    var j := Pick(m);
    if j != k {
      var mj, mk := m - {j}, m - {k};
      SumRemove(mj, k, f);
      SumRemove(mk, j, f);
      assert mj - {k} == mk - {j};
    }
  }

  /** Writing one record changes the sum by the difference between the new and the old value. */
  lemma SumUpdate<K, V>(m: map<K, V>, k: K, v: V, f: V -> int)
    ensures k in m ==> Sum(m[k := v], f) == Sum(m, f) - f(m[k]) + f(v)
    ensures k !in m ==> Sum(m[k := v], f) == Sum(m, f) + f(v)
  {
    var m' := m[k := v];
    SumRemove(m', k, f);
    if k in m {
      SumRemove(m, k, f);
      assert m' - {k} == m - {k};
    } else {
      assert m' - {k} == m;
    }
  }

  /** Removing one record subtracts its value from the sum. */
  lemma SumDelete<K, V>(m: map<K, V>, k: K, f: V -> int)
    requires k in m
    ensures Sum(m - {k}, f) == Sum(m, f) - f(m[k])
  {
    SumRemove(m, k, f);
  }

  /** A sum of non-negative values is non-negative. */
  lemma {:induction false} SumNonNegative<K, V>(m: map<K, V>, f: V -> int)
    requires forall k :: k in m ==> f(m[k]) >= 0
    ensures Sum(m, f) >= 0
    decreases m.Keys
  {
    if m != map[] {
      var k := Pick(m);
      SumNonNegative(m - {k}, f);
    }
  }

  /** A sum of zeros is zero. */
  lemma {:induction false} SumZero<K, V>(m: map<K, V>, f: V -> int)
    requires forall k :: k in m ==> f(m[k]) == 0
    ensures Sum(m, f) == 0
    decreases m.Keys
  {
    if m != map[] {
      var k := Pick(m);
      SumZero(m - {k}, f);
    }
  }

  /** Sums of two functions that agree on every record of the map are equal. */
  lemma {:induction false} SumCongruent<K, V>(m: map<K, V>, f: V -> int, g: V -> int)
    requires forall k :: k in m ==> f(m[k]) == g(m[k])
    ensures Sum(m, f) == Sum(m, g)
    decreases m.Keys
  {
    if m != map[] {
      var k := Pick(m);
      SumCongruent(m - {k}, f, g);
    }
  }
}
