/** The sum of the values of a finite map, for counting statements about
    the per-key tables (`map<string, ...>`) of the EPG and the category
    tally. */
module MapSum {

  /** Some key of a non-empty map. */
  ghost function Pick<K>(m: map<K, nat>): (k: K)
    requires |m| > 0
    ensures k in m
  {
    var k :| k in m; k
  }

  /** The sum of the values, taken in an arbitrary key order. */
  ghost function Total<K>(m: map<K, nat>): nat
    decreases |m|
  {
    if |m| == 0 then 0
    else
      var k := Pick(m);
      m[k] + Total(m - {k})
  }

  /** Any key can be taken out first: the order does not matter. */
  lemma {:induction false} TotalRemove<K>(m: map<K, nat>, k: K)
    requires k in m
    ensures Total(m) == m[k] + Total(m - {k})
    decreases |m|, 1
  {
    var j := Pick(m);
    if j != k {
      TotalRemoveOther(m, j, k);
    }
  }

  /** The case of `TotalRemove` where `Total` took out another key `j`. */
  lemma {:induction false} TotalRemoveOther<K>(m: map<K, nat>, j: K, k: K)
    requires j in m && k in m && j != k
    requires Total(m) == m[j] + Total(m - {j})
    ensures Total(m) == m[k] + Total(m - {k})
    decreases |m|, 0
  {
    RemoveOne(m, j);
    RemoveOne(m, k);
    TotalRemove(m - {j}, k);
    TotalRemove(m - {k}, j);
    SwapFirst(m, j, k);
  }

  /** Taking out `j` first gives the same sum as taking out `k` first, once
      each is known to work on the smaller maps. */
  lemma SwapFirst<K>(m: map<K, nat>, j: K, k: K)
    requires j in m && k in m && j != k
    requires Total(m) == m[j] + Total(m - {j})
    requires Total(m - {j}) == (m - {j})[k] + Total((m - {j}) - {k})
    requires Total(m - {k}) == (m - {k})[j] + Total((m - {k}) - {j})
    ensures Total(m) == m[k] + Total(m - {k})
  {
    RemoveBoth(m, j, k);
  }

  lemma RemoveOne<K>(m: map<K, nat>, k: K)
    requires k in m
    ensures |m - {k}| == |m| - 1 && (m - {k}).Keys == m.Keys - {k}
  {
    assert (m - {k}).Keys == m.Keys - {k};
  }

  lemma RemoveBoth<K>(m: map<K, nat>, j: K, k: K)
    requires j != k
    ensures (m - {j}) - {k} == (m - {k}) - {j}
    ensures j in m ==> (m - {k})[j] == m[j]
    ensures k in m ==> (m - {j})[k] == m[k]
  {
  }

  /** Setting one entry changes the total by the difference. */
  lemma TotalUpdate<K>(m: map<K, nat>, k: K, v: nat)
    ensures Total(m[k := v]) + (if k in m then m[k] else 0) == Total(m) + v
  {
    var m' := m[k := v];
    UpdateThenRemove(m, k, v);
    TotalRemove(m', k);
    if k in m {
      TotalRemove(m, k);
    }
  }

  /** Removing an updated key forgets the update; removing an absent key
      changes nothing. */
  lemma UpdateThenRemove<K>(m: map<K, nat>, k: K, v: nat)
    ensures k in m[k := v] && m[k := v][k] == v
    ensures m[k := v] - {k} == m - {k}
    ensures k !in m ==> m - {k} == m
  {
  }

  /** Two distinct keys taken out at once. */
  lemma TotalRemoveTwo<K>(m: map<K, nat>, a: K, b: K)
    requires a in m && b in m && a != b
    ensures Total(m) == m[a] + m[b] + Total(m - {a, b})
  {
    TotalRemove(m, a);
    TotalRemove(m - {a}, b);
    assert m - {a} - {b} == m - {a, b};
  }
}
