/** Sizes of finite sets and sums over finite maps. */
module Sets {
  lemma {:induction false} SmallerSet<T>(a: set<T>, b: set<T>)
    requires a <= b
    ensures |a| <= |b|
  {
    if a != {} {
      var x :| x in a;
      SmallerSet(a - {x}, b - {x});
    }
  }

  ghost function Sum<K, V>(m: map<K, V>, size: V -> nat): nat
    decreases |m|
  {
    if m == map[] then 0
    else
      var key :| key in m;
      size(m[key]) + Sum(m - {key}, size)
  }

  lemma {:induction false} SumWithout<K, V>(m: map<K, V>, size: V -> nat, key: K)
    requires key in m
    ensures Sum(m, size) == size(m[key]) + Sum(m - {key}, size)
    decreases |m|
  {
    var picked :| picked in m && Sum(m, size) == size(m[picked]) + Sum(m - {picked}, size);
    if picked != key {
      SumWithout(m - {picked}, size, key);
      SumWithout(m - {key}, size, picked);
      assert m - {picked} - {key} == m - {key} - {picked};
    }
  }

  lemma SumInsert<K, V>(m: map<K, V>, size: V -> nat, key: K, v: V)
    ensures Sum(m[key := v], size) + (if key in m then size(m[key]) else 0) == Sum(m, size) + size(v)
  {
    SumWithout(m[key := v], size, key);
    assert m[key := v] - {key} == m - {key};
    if key in m {
      SumWithout(m, size, key);
    } else {
      assert m - {key} == m;
    }
  }

  lemma {:induction false} SumSame<K, V>(a: map<K, V>, b: map<K, V>, size: V -> nat)
    requires a.Keys == b.Keys && forall key <- a :: size(a[key]) == size(b[key])
    ensures Sum(a, size) == Sum(b, size)
    decreases |a|
  {
    if key :| key in a {
      SumWithout(a, size, key);
      SumWithout(b, size, key);
      SumSame(a - {key}, b - {key}, size);
    } else {
      assert a == map[] && b == map[];
    }
  }
}
