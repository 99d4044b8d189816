/**
 * Sums over the rows of a table held as a map: the `Sum(...)` aggregate the
 * ORM computes, and the `Σ signed_amount` the balance invariant speaks of.
 */
module MapSums {

  /** The sum of `f` over every value of `m` (order does not matter). */
  ghost function SumOver<K, V>(m: map<K, V>, f: V -> int): int
    decreases |m|
  {
    if m == map[] then 0
    else
      var k :| k in m;
      f(m[k]) + SumOver(m - {k}, f)
  }

  /** Any row may be taken out first. */
  lemma {:induction false} SumRemove<K, V>(m: map<K, V>, f: V -> int, k: K)
    requires k in m
    ensures SumOver(m, f) == f(m[k]) + SumOver(m - {k}, f)
    decreases |m|
  {
    var j :| j in m && SumOver(m, f) == f(m[j]) + SumOver(m - {j}, f);
    if j != k {
      var mj, mk := m - {j}, m - {k};
      SumRemove(mj, f, k);
      SumRemove(mk, f, j);
      assert mj - {k} == mk - {j};
    }
  }

  /** Adding a row under a fresh key adds its value. */
  lemma SumInsert<K, V>(m: map<K, V>, f: V -> int, k: K, v: V)
    requires k !in m
    ensures SumOver(m[k := v], f) == f(v) + SumOver(m, f)
  {
    SumRemove(m[k := v], f, k);
    assert m[k := v] - {k} == m;
  }

  /** Replacing a row changes the sum by the difference of the two values. */
  lemma SumReplace<K, V>(m: map<K, V>, f: V -> int, k: K, v: V)
    requires k in m
    ensures SumOver(m[k := v], f) == SumOver(m, f) - f(m[k]) + f(v)
  {
    SumRemove(m[k := v], f, k);
    SumRemove(m, f, k);
    assert m[k := v] - {k} == m - {k};
  }

  /** Two summands that agree on every row give the same sum. */
  lemma {:induction false} SumCongruent<K, V>(m: map<K, V>, f: V -> int, g: V -> int)
    requires forall k :: k in m ==> f(m[k]) == g(m[k])
    ensures SumOver(m, f) == SumOver(m, g)
    decreases |m|
  {
    if m != map[] {
      var k :| k in m;
      SumRemove(m, f, k);
      SumRemove(m, g, k);
      SumCongruent(m - {k}, f, g);
    }
  }

  /** Rows that contribute nothing do not change the sum. */
  lemma {:induction false} SumZero<K, V>(m: map<K, V>, f: V -> int)
    requires forall k :: k in m ==> f(m[k]) == 0
    ensures SumOver(m, f) == 0
    decreases |m|
  {
    if m != map[] {
      var k :| k in m;
      SumRemove(m, f, k);
      SumZero(m - {k}, f);
    }
  }

  /** Non-negative rows give a non-negative sum. */
  lemma {:induction false} SumNonNegative<K, V>(m: map<K, V>, f: V -> int)
    requires forall k :: k in m ==> f(m[k]) >= 0
    ensures SumOver(m, f) >= 0
    decreases |m|
  {
    if m != map[] {
      var k :| k in m;
      SumRemove(m, f, k);
      SumNonNegative(m - {k}, f);
    }
  }

  /** The sum of a single-row table is that row's value. */
  lemma SumSingleton<K, V>(m: map<K, V>, f: V -> int, k: K)
    requires m.Keys == {k}
    ensures SumOver(m, f) == f(m[k])
  {
    SumRemove(m, f, k);
    assert m - {k} == map[];
  }

  /** The aggregate as a program computes it: visit every row once. */
  method Sum<K, V>(m: map<K, V>, f: V -> int) returns (total: int)
    ensures total == SumOver(m, f)
  {
    total := 0;
    var rest := m;
    while rest != map[]
      invariant rest.Keys <= m.Keys
      invariant forall k :: k in rest ==> rest[k] == m[k]
      invariant total + SumOver(rest, f) == SumOver(m, f)
      decreases |rest|
    {
      var k :| k in rest;
      SumRemove(rest, f, k);
      total := total + f(rest[k]);
      rest := rest - {k};
    }
  }
}
