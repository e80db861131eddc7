/** The sum of the values of a map, and how updates move it. */
module MapSum {

  ghost function Sum<K(!new)>(m: map<K, nat>): nat {
    if m == map[] then 0
    else
      var k :| k in m;
      m[k] + Sum(m - {k})
  }

  lemma {:induction false} SumMinus<K(!new)>(m: map<K, nat>, k: K)
    requires k in m
    ensures Sum(m) == m[k] + Sum(m - {k})
    decreases |m|
  {
    var j :| j in m && Sum(m) == m[j] + Sum(m - {j});
    if j != k {
      SumMinus(m - {j}, k);
      SumMinus(m - {k}, j);
      assert (m - {j}) - {k} == (m - {k}) - {j};
    }
  }

  function At<K>(m: map<K, nat>, k: K): nat {
    if k in m then m[k] else 0
  }

  /** Writing one entry moves the sum by the change of that entry. */
  lemma SumUpdate<K(!new)>(m: map<K, nat>, k: K, v: nat)
    ensures Sum(m[k := v]) == Sum(m) - At(m, k) + v
    ensures At(m, k) <= Sum(m)
  {
    var m1 := m[k := v];
    SumMinus(m1, k);
    if k in m {
      SumMinus(m, k);
      assert m1 - {k} == m - {k};
    } else {
      assert m1 - {k} == m;
    }
  }

  /** Writing two different entries moves it by both changes; two entries never exceed the sum. */
  lemma SumUpdate2<K(!new)>(m: map<K, nat>, j: K, v: nat, k: K, w: nat)
    requires j != k
    ensures Sum(m[j := v][k := w]) == Sum(m) - At(m, j) + v - At(m, k) + w
    ensures At(m, j) + At(m, k) <= Sum(m)
  {
    SumUpdate(m, j, v);
    SumUpdate(m[j := v], k, w);
    SumUpdate(m, j, 0);
    SumUpdate(m[j := 0], k, 0);
  }
}
