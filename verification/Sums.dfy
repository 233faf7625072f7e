/** The sum of the values of a map. */
module Sums {

  ghost function Sum(m: map<nat, int>): int {
    if m == map[] then 0 else var i :| i in m; m[i] + Sum(m - {i})
  }

  lemma {:induction false} SumWithout(m: map<nat, int>, i: nat)
    requires i in m
    ensures Sum(m) == m[i] + Sum(m - {i})
    decreases |m|
  {
    var j :| j in m && Sum(m) == m[j] + Sum(m - {j});
    if i != j {
      SumWithout(m - {j}, i);
      assert m - {j} - {i} == m - {i} - {j};
      SumWithout(m - {i}, j);
    }
  }

  lemma SumSet(m: map<nat, int>, i: nat, v: int)
    ensures Sum(m[i := v]) == v + Sum(m - {i})
    ensures i in m ==> Sum(m[i := v]) == Sum(m) - m[i] + v
    ensures i !in m ==> Sum(m[i := v]) == Sum(m) + v
  {
    SumWithout(m[i := v], i);
    assert m[i := v] - {i} == m - {i};
    if i in m {
      SumWithout(m, i);
    } else {
      assert m - {i} == m;
    }
  }
}
