/** Sums over the values of a finite map. */
module MapSum {

  ghost function Pick<K(!new)>(m: map<K, nat>): (k: K)
    requires |m| > 0
    ensures k in m
  {
    var k :| k in m;
    k
  }

  ghost function Sum<K(!new)>(m: map<K, nat>): nat
    decreases |m|
  {
    if |m| == 0 then 0 else m[Pick(m)] + Sum(m - {Pick(m)})
  }

  lemma {:induction false} SumRemove<K(!new)>(m: map<K, nat>, k: K)
    requires k in m
    ensures Sum(m) == m[k] + Sum(m - {k})
    decreases |m|
  {
    var j := Pick(m);
    if j != k {
      var mj, mk := m - {j}, m - {k};
      SumRemove(mj, k);
      SumRemove(mk, j);
      assert mj - {k} == mk - {j};
    }
  }

  lemma {:induction false} UpdateThenRemove<K>(m: map<K, nat>, k: K, v: nat)
    ensures m[k := v] - {k} == m - {k}
    ensures k !in m ==> m - {k} == m
  {
  }

  lemma {:induction false} SumUpdate<K(!new)>(m: map<K, nat>, k: K, v: nat)
    ensures Sum(m[k := v]) == Sum(m) - (if k in m then m[k] else 0) + v
  {
    UpdateThenRemove(m, k, v);
    SumRemove(m[k := v], k);
    if k in m { SumRemove(m, k); }
  }
}
