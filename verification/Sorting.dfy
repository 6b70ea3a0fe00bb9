/** A stable sort by an arbitrary order, `dedup` on sorted input, and the order of names. */
module Sorting {
  import opened Prelude

  ghost predicate Preorder<T(!new)>(leq: (T, T) -> bool) {
    && (forall x, y :: leq(x, y) || leq(y, x))
    && (forall x, y, z :: leq(x, y) && leq(y, z) ==> leq(x, z))
  }

  ghost predicate TotalOrder<T(!new)>(leq: (T, T) -> bool) {
    && Preorder(leq)
    && (forall x, y :: leq(x, y) && leq(y, x) ==> x == y)
  }

  ghost predicate Sorted<T>(s: seq<T>, leq: (T, T) -> bool) {
    forall i, j :: 0 <= i < j < |s| ==> leq(s[i], s[j])
  }

  function Insert<T>(x: T, s: seq<T>, leq: (T, T) -> bool): seq<T> {
    if s == [] || leq(x, s[0]) then [x] + s else [s[0]] + Insert(x, s[1..], leq)
  }

  /** Stable: an element goes in front of the later ones it does not exceed. */
  function Sort<T>(s: seq<T>, leq: (T, T) -> bool): seq<T> {
    if s == [] then [] else Insert(s[0], Sort(s[1..], leq), leq)
  }

  lemma {:induction false} InsertContents<T>(x: T, s: seq<T>, leq: (T, T) -> bool)
    ensures multiset(Insert(x, s, leq)) == multiset{x} + multiset(s)
  {
    if !(s == [] || leq(x, s[0])) {
      InsertContents(x, s[1..], leq);
      assert s == [s[0]] + s[1..];
    }
  }

  lemma {:induction false} SortContents<T>(s: seq<T>, leq: (T, T) -> bool)
    ensures multiset(Sort(s, leq)) == multiset(s)
    ensures |Sort(s, leq)| == |s|
    ensures Elems(Sort(s, leq)) == Elems(s)
  {
    if s != [] {
      SortContents(s[1..], leq);
      InsertContents(s[0], Sort(s[1..], leq), leq);
      assert s == [s[0]] + s[1..];
    }
    SameElements(Sort(s, leq), s);
    assert |multiset(Sort(s, leq))| == |multiset(s)|;
  }

  lemma SameElements<T>(s: seq<T>, t: seq<T>)
    requires multiset(s) == multiset(t)
    ensures Elems(s) == Elems(t)
  {
    forall x
      ensures x in s <==> x in t
    {
      assert x in s <==> x in multiset(s);
      assert x in t <==> x in multiset(t);
    }
  }

  lemma {:induction false} InsertSorted<T(!new)>(x: T, s: seq<T>, leq: (T, T) -> bool)
    requires Preorder(leq) && Sorted(s, leq)
    ensures Sorted(Insert(x, s, leq), leq)
  {
    if s == [] {
    } else if leq(x, s[0]) {
    } else {
      InsertSorted(x, s[1..], leq);
      InsertContents(x, s[1..], leq);
      var r := Insert(x, s[1..], leq);
      forall i | 0 <= i < |r|
        ensures leq(s[0], r[i])
      {
        assert r[i] in multiset(r);
        if r[i] != x {
          assert r[i] in s[1..];
        }
      }
    }
  }

  lemma {:induction false} SortSorted<T(!new)>(s: seq<T>, leq: (T, T) -> bool)
    requires Preorder(leq)
    ensures Sorted(Sort(s, leq), leq)
  {
    if s != [] {
      SortSorted(s[1..], leq);
      InsertSorted(s[0], Sort(s[1..], leq), leq);
    }
  }

  /** Two sorted lists of the same elements start alike. */
  lemma SortedHead<T(!new)>(s: seq<T>, t: seq<T>, leq: (T, T) -> bool)
    requires TotalOrder(leq) && Sorted(s, leq) && Sorted(t, leq)
    requires multiset(s) == multiset(t) && s != [] && t != []
    ensures s[0] == t[0]
  {
    assert s[0] in multiset(t) && t[0] in multiset(s);
    var i :| 0 <= i < |t| && t[i] == s[0];
    var j :| 0 <= j < |s| && s[j] == t[0];
    assert i == 0 || leq(t[0], t[i]);
    assert j == 0 || leq(s[0], s[j]);
  }

  /** A sorted arrangement under a total order is the only one. */
  lemma {:induction false} SortedUnique<T(!new)>(s: seq<T>, t: seq<T>, leq: (T, T) -> bool)
    requires TotalOrder(leq) && Sorted(s, leq) && Sorted(t, leq)
    requires multiset(s) == multiset(t)
    ensures s == t
  {
    assert |multiset(s)| == |s| && |multiset(t)| == |t|;
    if s != [] {
      SortedHead(s, t, leq);
      assert s == [s[0]] + s[1..] && t == [t[0]] + t[1..];
      assert multiset(s[1..]) == multiset(s) - multiset{s[0]};
      assert multiset(t[1..]) == multiset(t) - multiset{t[0]};
      SortedUnique(s[1..], t[1..], leq);
    }
  }

  /** Removes consecutive repeats. */
  function Dedup<T(==)>(s: seq<T>): seq<T> {
    if |s| <= 1 then s
    else if s[0] == s[1] then Dedup(s[1..])
    else [s[0]] + Dedup(s[1..])
  }

  lemma {:induction false} DedupSorted<T(!new)>(s: seq<T>, leq: (T, T) -> bool)
    requires TotalOrder(leq) && Sorted(s, leq)
    ensures Elems(Dedup(s)) == Elems(s)
    ensures NoDup(Dedup(s)) && Sorted(Dedup(s), leq)
    ensures s != [] ==> Dedup(s) != [] && Dedup(s)[0] == s[0]
  {
    if |s| > 1 {
      DedupSorted(s[1..], leq);
      var r := Dedup(s[1..]);
      assert s == [s[0]] + s[1..];
      assert Elems(s) == {s[0]} + Elems(s[1..]);
      if s[0] != s[1] {
        forall i | 0 <= i < |r|
          ensures leq(s[0], r[i]) && s[0] != r[i]
        {
          assert r[i] in Elems(r);
          assert r[i] in s[1..];
          assert leq(s[1], r[i]) by { assert leq(r[0], r[0]); }
        }
        assert Elems([s[0]] + r) == {s[0]} + Elems(r);
      }
    }
  }

  /** The duplicate-free sorted sequences over one set coincide. */
  lemma SetSortedUnique<T(!new)>(s: seq<T>, t: seq<T>, leq: (T, T) -> bool)
    requires TotalOrder(leq) && Sorted(s, leq) && Sorted(t, leq)
    requires NoDup(s) && NoDup(t) && Elems(s) == Elems(t)
    ensures s == t
  {
    NoDupMultiset(s);
    NoDupMultiset(t);
    SortedUnique(s, t, leq);
  }

  lemma {:induction false} NoDupMultiset<T>(s: seq<T>)
    requires NoDup(s)
    ensures multiset(s) == multiset(Elems(s))
  {
    if s != [] {
      var front := s[..|s| - 1];
      NoDupMultiset(front);
      var last := s[|s| - 1];
      assert s == front + [last];
      assert last !in Elems(front);
      assert Elems(s) == Elems(front) + {last};
      assert multiset(Elems(front) + {last}) == multiset(Elems(front)) + multiset{last};
    }
  }

  lemma NoDupFromMultiset<T>(s: seq<T>, t: seq<T>)
    requires NoDup(t) && multiset(s) == multiset(t)
    ensures NoDup(s)
  {
    NoDupMultiset(t);
    forall i, j | 0 <= i < j < |s|
      ensures s[i] != s[j]
    {
      var tail := s[i + 1..];
      assert s == s[..i] + [s[i]] + tail;
      assert tail[j - i - 1] == s[j] && s[j] in multiset(tail);
      assert multiset(s)[s[i]] == multiset(s[..i])[s[i]] + 1 + multiset(tail)[s[i]];
      assert multiset(Elems(t))[s[i]] <= 1;
    }
  }

  /** Sorting by a key that ignores ties keeps the order the input already had. */
  lemma {:induction false} StableSort<T(!new)>(s: seq<T>, byKey: (T, T) -> bool, base: (T, T) -> bool, lex: (T, T) -> bool)
    requires Preorder(byKey) && Sorted(s, base)
    requires forall x, y :: lex(x, y) <==> byKey(x, y) && (byKey(y, x) ==> base(x, y))
    ensures Sort(s, byKey) == Sort(s, lex)
  {
    if s != [] {
      StableSort(s[1..], byKey, base, lex);
      var r := Sort(s[1..], lex);
      SortContents(s[1..], lex);
      forall y | y in r
        ensures base(s[0], y)
      {
        assert y in Elems(r);
        assert y in s[1..];
      }
      InsertAgree(s[0], r, byKey, lex);
    }
  }

  lemma {:induction false} InsertAgree<T(!new)>(x: T, s: seq<T>, a: (T, T) -> bool, b: (T, T) -> bool)
    requires forall y :: y in s ==> (a(x, y) <==> b(x, y))
    ensures Insert(x, s, a) == Insert(x, s, b)
  {
    if s != [] && !a(x, s[0]) {
      InsertAgree(x, s[1..], a, b);
    }
  }

  // ---- names ----

  /** The order of UTF-8 strings, which is the order of their code points. */
  predicate NameLeq(a: string, b: string) {
    if a == [] then true
    else if b == [] then false
    else if a[0] != b[0] then a[0] < b[0]
    else NameLeq(a[1..], b[1..])
  }

  lemma {:induction false} NameLeqTotal(a: string, b: string)
    ensures NameLeq(a, b) || NameLeq(b, a)
    ensures NameLeq(a, b) && NameLeq(b, a) ==> a == b
  {
    if a != [] && b != [] && a[0] == b[0] {
      NameLeqTotal(a[1..], b[1..]);
      assert a == [a[0]] + a[1..] && b == [b[0]] + b[1..];
    }
  }

  lemma {:induction false} NameLeqTrans(a: string, b: string, c: string)
    requires NameLeq(a, b) && NameLeq(b, c)
    ensures NameLeq(a, c)
  {
    if a != [] && b != [] && c != [] && a[0] == b[0] && b[0] == c[0] {
      NameLeqTrans(a[1..], b[1..], c[1..]);
    }
  }

  lemma NameOrder()
    ensures TotalOrder(NameLeq)
  {
    forall a, b
      ensures NameLeq(a, b) || NameLeq(b, a)
      ensures NameLeq(a, b) && NameLeq(b, a) ==> a == b
    {
      NameLeqTotal(a, b);
    }
    forall a, b, c | NameLeq(a, b) && NameLeq(b, c)
      ensures NameLeq(a, c)
    {
      NameLeqTrans(a, b, c);
    }
  }

  // ---- the keys of a map in their order ----

  lemma {:induction false} LeastKey(s: set<nat>) returns (k: nat)
    requires s != {}
    ensures k in s && forall j :: j in s ==> k <= j
  {
    var x :| x in s;
    k := x;
    if s != {x} {
      var r := LeastKey(s - {x});
      k := Min(x, r);
      assert forall j :: j in s ==> j == x || j in s - {x};
    }
  }

  function Least(s: set<nat>): (k: nat)
    requires s != {}
    ensures k in s && forall j :: j in s ==> k <= j
  {
    assert exists k :: k in s && forall j :: j in s ==> k <= j by {
      var k := LeastKey(s);
    }
    var k :| k in s && forall j :: j in s ==> k <= j;
    k
  }

  function SortedKeys(s: set<nat>): seq<nat> {
    if s == {} then [] else [Least(s)] + SortedKeys(s - {Least(s)})
  }

  lemma {:induction false} SortedKeysContents(s: set<nat>)
    ensures Elems(SortedKeys(s)) == s && |SortedKeys(s)| == |s|
  {
    if s != {} {
      var k, rest := Least(s), SortedKeys(s - {Least(s)});
      SortedKeysContents(s - {k});
      assert Elems([k] + rest) == {k} + Elems(rest);
    }
  }
}
