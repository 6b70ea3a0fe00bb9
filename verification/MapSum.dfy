/** Sums over the values of a map, independent of any enumeration of its keys. */
module MapSum {

  ghost function SumOver<K>(s: set<K>, m: map<K, int>): int
    requires s <= m.Keys
  {
    if s == {} then 0 else
      var k :| k in s;
      m[k] + SumOver(s - {k}, m)
  }

  ghost function Sum<K>(m: map<K, int>): int {
    SumOver(m.Keys, m)
  }

  function Get<K(==)>(m: map<K, int>, k: K): int {
    if k in m then m[k] else 0
  }

  ghost predicate NonNegative<K>(m: map<K, int>) {
    forall k :: k in m ==> m[k] >= 0
  }

  /** Any key may be split off first. */
  lemma {:induction false} SumSplit<K>(s: set<K>, m: map<K, int>, k: K)
    requires s <= m.Keys && k in s
    ensures SumOver(s, m) == m[k] + SumOver(s - {k}, m)
  {
    var j :| j in s && SumOver(s, m) == m[j] + SumOver(s - {j}, m);
    if j != k {
      SumSplit(s - {j}, m, k);
      SumSplit(s - {k}, m, j);
      assert s - {j} - {k} == s - {k} - {j};
    }
  }

  lemma {:induction false} SumAgree<K>(s: set<K>, m: map<K, int>, r: map<K, int>)
    requires s <= m.Keys && s <= r.Keys && forall k :: k in s ==> m[k] == r[k]
    ensures SumOver(s, m) == SumOver(s, r)
  {
    if s != {} {
      var k :| k in s;
      SumSplit(s, m, k);
      SumSplit(s, r, k);
      SumAgree(s - {k}, m, r);
    }
  }

  lemma SumUpdate<K>(m: map<K, int>, k: K, v: int)
    ensures Sum(m[k := v]) == Sum(m) - Get(m, k) + v
  {
    var r := m[k := v];
    SumSplit(r.Keys, r, k);
    var rest := r.Keys - {k};
    SumAgree(rest, m, r);
    if k in m {
      assert rest == m.Keys - {k};
      SumSplit(m.Keys, m, k);
    } else {
      assert rest == m.Keys;
    }
  }

  lemma {:induction false} SumOverBounds<K>(s: set<K>, m: map<K, int>)
    requires s <= m.Keys && NonNegative(m)
    ensures SumOver(s, m) >= 0
  {
    if s != {} {
      var k :| k in s;
      SumSplit(s, m, k);
      SumOverBounds(s - {k}, m);
    }
  }

  lemma SumEmpty<K>(m: map<K, int>)
    requires m == map[]
    ensures Sum(m) == 0
  {
  }

  lemma SumNonNegative<K>(m: map<K, int>)
    requires NonNegative(m)
    ensures Sum(m) >= 0
  {
    SumOverBounds(m.Keys, m);
  }

  /** No value exceeds the total. */
  lemma ValueBound<K>(m: map<K, int>, k: K)
    requires NonNegative(m)
    ensures 0 <= Get(m, k) <= Sum(m)
  {
    SumOverBounds(m.Keys, m);
    if k in m {
      SumSplit(m.Keys, m, k);
      SumOverBounds(m.Keys - {k}, m);
    }
  }

  /** Raising every value of `m` by `v` raises the sum by `v` per key. */
  lemma {:induction false} SumRaise<K>(s: set<K>, m: map<K, int>, r: map<K, int>, v: int)
    requires s <= m.Keys && s <= r.Keys && forall k :: k in s ==> r[k] == m[k] + v
    ensures SumOver(s, r) == SumOver(s, m) + |s| * v
  {
    if s != {} {
      var k :| k in s;
      SumSplit(s, m, k);
      SumSplit(s, r, k);
      SumRaise(s - {k}, m, r, v);
      assert |s| * v == |s - {k}| * v + v;
    }
  }

  lemma SumConstant<K>(m: map<K, int>, v: int)
    requires forall k :: k in m ==> m[k] == v
    ensures Sum(m) == |m| * v
  {
    var zero := map k | k in m :: 0;
    SumZero(m.Keys, zero);
    SumRaise(m.Keys, zero, m, v);
    assert |m.Keys| == |m|;
  }

  lemma {:induction false} SumZero<K>(s: set<K>, m: map<K, int>)
    requires s <= m.Keys && forall k :: k in s ==> m[k] == 0
    ensures SumOver(s, m) == 0
  {
    if s != {} {
      var k :| k in s;
      SumSplit(s, m, k);
      SumZero(s - {k}, m);
    }
  }
}
