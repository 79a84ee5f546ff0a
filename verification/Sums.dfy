/** Sums over finite maps. */
module Sums {

  ghost function Sum<V>(m: map<nat, V>, f: V -> int): int
    decreases |m|
  {
    if m == map[] then 0
    else
      var k :| k in m;
      f(m[k]) + Sum(m - {k}, f)
  }

  lemma {:induction false} SumDrop<V>(m: map<nat, V>, k: nat, f: V -> int)
    requires k in m
    ensures Sum(m, f) == f(m[k]) + Sum(m - {k}, f)
    decreases |m|
  {
    var j :| j in m && Sum(m, f) == f(m[j]) + Sum(m - {j}, f);
    if j != k {
      SumDrop(m - {j}, k, f);
      SumDrop(m - {k}, j, f);
      assert m - {j} - {k} == m - {k} - {j};
    }
  }

  lemma SumPut<V>(m: map<nat, V>, k: nat, v: V, f: V -> int)
    ensures Sum(m[k := v], f) == f(v) + Sum(m - {k}, f)
  {
    SumDrop(m[k := v], k, f);
    assert m[k := v] - {k} == m - {k};
  }

  lemma {:induction false} SumNonNegative<V>(m: map<nat, V>, f: V -> int)
    requires forall k :: k in m ==> f(m[k]) >= 0
    ensures Sum(m, f) >= 0
    decreases |m|
  {
    if m != map[] {
      var j :| j in m && Sum(m, f) == f(m[j]) + Sum(m - {j}, f);
      SumNonNegative(m - {j}, f);
    }
  }

  lemma {:induction false} SumZero<V>(m: map<nat, V>, f: V -> int)
    requires forall k :: k in m ==> f(m[k]) == 0
    ensures Sum(m, f) == 0
    decreases |m|
  {
    if m != map[] {
      var j :| j in m && Sum(m, f) == f(m[j]) + Sum(m - {j}, f);
      SumZero(m - {j}, f);
    }
  }
}
