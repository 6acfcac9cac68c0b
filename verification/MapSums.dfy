/** Sums over the values of a map, in whatever order they are visited. */
module MapSums {

  ghost function Any<T>(s: set<T>): (x: T)
    requires s != {}
    ensures x in s
  {
    var x :| x in s;
    x
  }

  ghost function Sum(m: map<int, nat>): nat
    decreases |m|
  {
    if m.Keys == {} then 0
    else
      var k := Any(m.Keys);
      m[k] + Sum(m - {k})
  }

  lemma {:induction false} SumRemove(m: map<int, nat>, k: int)
    requires k in m
    ensures Sum(m) == m[k] + Sum(m - {k})
    decreases |m|
  {
    var j := Any(m.Keys);
    if j != k {
      RemoveTwo(m, j, k);
      SumRemove(m - {j}, k);
      SumRemove(m - {k}, j);
    }
  }

  lemma RemoveTwo(m: map<int, nat>, j: int, k: int)
    requires j in m && k in m && j != k
    ensures m - {j} - {k} == m - {k} - {j}
    ensures k in m - {j} && (m - {j})[k] == m[k] && j in m - {k} && (m - {k})[j] == m[j]
    ensures |m - {j}| < |m| && |m - {k}| < |m|
  {
    assert (m - {j}).Keys == m.Keys - {j} && (m - {k}).Keys == m.Keys - {k};
  }

  lemma SumAdd(m: map<int, nat>, k: int, v: nat)
    requires k !in m
    ensures Sum(m[k := v]) == Sum(m) + v
  {
    SumRemove(m[k := v], k);
    assert m[k := v] - {k} == m;
  }

  lemma RemoveFromUnion(a: map<int, nat>, b: map<int, nat>, k: int)
    requires k !in a
    ensures (a + b) - {k} == a + (b - {k})
  {
  }

  lemma SumRemoveFromUnion(a: map<int, nat>, b: map<int, nat>, k: int)
    requires k in b && k !in a
    ensures Sum(a + b) == b[k] + Sum(a + (b - {k}))
  {
    SumRemove(a + b, k);
    RemoveFromUnion(a, b, k);
  }

  lemma {:induction false} SumDisjoint(a: map<int, nat>, b: map<int, nat>)
    requires a.Keys !! b.Keys
    ensures Sum(a + b) == Sum(a) + Sum(b)
    decreases |b|
  {
    if b.Keys == {} {
      assert a + b == a;
    } else {
      var k := Any(b.Keys);
      SumDisjoint(a, b - {k});
      SumRemove(b, k);
      SumRemoveFromUnion(a, b, k);
    }
  }

  /** Equal termwise in pairs, hence equal in sum. */
  lemma {:induction false} SumPairs(a: map<int, nat>, b: map<int, nat>, c: map<int, nat>, d: map<int, nat>)
    requires a.Keys == b.Keys == c.Keys == d.Keys
    requires forall k <- a :: a[k] + b[k] == c[k] + d[k]
    ensures Sum(a) + Sum(b) == Sum(c) + Sum(d)
    decreases |a|
  {
    if a.Keys != {} {
      var k := Any(a.Keys);
      SumRemove(a, k);
      SumRemove(b, k);
      SumRemove(c, k);
      SumRemove(d, k);
      SumPairs(a - {k}, b - {k}, c - {k}, d - {k});
    }
  }

  lemma {:induction false} SumIsZero(m: map<int, nat>)
    ensures Sum(m) == 0 <==> forall k <- m :: m[k] == 0
    decreases |m|
  {
    if m.Keys != {} {
      var k := Any(m.Keys);
      SumRemove(m, k);
      SumIsZero(m - {k});
      assert forall j <- m :: j == k || (j in m - {k} && (m - {k})[j] == m[j]);
    }
  }
}
