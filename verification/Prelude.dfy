/** Result types, machine-integer arithmetic and set facts shared by every component. */
module Prelude {

  datatype Option<+T> = None | Some(value: T)

  datatype Result<+T, +E> = Ok(value: T) | Err(error: E)

  const U64_MAX: nat := 0xFFFF_FFFF_FFFF_FFFF
  const U128_MAX: nat := 0xFFFF_FFFF_FFFF_FFFF_FFFF_FFFF_FFFF_FFFF

  type u64 = x: int | 0 <= x <= 0xFFFF_FFFF_FFFF_FFFF
  type u128 = x: int | 0 <= x <= 0xFFFF_FFFF_FFFF_FFFF_FFFF_FFFF_FFFF_FFFF
  type byte = x: int | 0 <= x < 256

  function Min(a: int, b: int): int {
    if a <= b then a else b
  }

  function Max(a: int, b: int): int {
    if a <= b then b else a
  }

  function SatAdd64(a: u64, b: u64): u64 {
    Min(a + b, U64_MAX)
  }

  function SatMul64(a: u64, b: u64): u64 {
    Min(a * b, U64_MAX)
  }

  function SatSub(a: nat, b: nat): nat {
    if a <= b then 0 else a - b
  }

  function SatAdd128(a: u128, b: u128): u128 {
    Min(a + b, U128_MAX)
  }

  function SatMul128(a: u128, b: u128): u128 {
    Min(a * b, U128_MAX)
  }

  function DivCeil(a: nat, b: nat): nat
    requires b > 0
  {
    (a + b - 1) / b
  }

  lemma MulMonotone(a: nat, b: nat, n: nat)
    requires a <= b
    ensures a * n <= b * n && n * a <= n * b
  {
  }

  /** Release builds wrap on `+ 1`. */
  function WrapInc64(a: u64): u64 {
    if a == U64_MAX then 0 else a + 1
  }

  /** The elements of a sequence. */
  function Elems<T>(s: seq<T>): set<T> {
    set x | x in s
  }

  predicate NoDup<T(==)>(s: seq<T>) {
    forall i, j :: 0 <= i < j < |s| ==> s[i] != s[j]
  }

  lemma {:induction false} SubsetSize<T>(x: set<T>, y: set<T>)
    requires x <= y
    ensures |x| <= |y|
    ensures |x| == |y| ==> x == y
  {
    if x != {} {
      var e :| e in x;
      SubsetSize(x - {e}, y - {e});
    }
  }

  lemma {:induction false} NoDupSize<T>(s: seq<T>)
    requires NoDup(s)
    ensures |Elems(s)| == |s|
  {
    if s != [] {
      var front, last := s[..|s| - 1], s[|s| - 1];
      assert last !in front;
      NoDupSize(front);
      hide NoDup;
      assert Elems(s) == Elems(front) + {last};
    }
  }

  lemma {:induction false} ElemsSize<T>(s: seq<T>)
    ensures |Elems(s)| <= |s|
  {
    if s != [] {
      var front := s[..|s| - 1];
      ElemsSize(front);
      assert Elems(s) == Elems(front) + {s[|s| - 1]};
    }
  }

  lemma FreshKeySize<K, V>(m: map<K, V>, key: K, value: V)
    requires key !in m
    ensures |m[key := value]| == |m| + 1
  {
    var r := m[key := value];
    assert r.Keys == m.Keys + {key};
    assert |r| == |r.Keys| && |m| == |m.Keys|;
  }

  /** Making room for one more entry keeps a table within its bound. */
  lemma RoomForOne<K, V>(m: map<K, V>, bound: nat, victim: K, key: K, value: V)
    requires 1 <= bound && |m| <= bound && (|m| >= bound ==> victim in m)
    ensures |(if |m| >= bound then m - {victim} else m)[key := value]| <= bound
  {
    var room := if |m| >= bound then m - {victim} else m;
    assert |m| == |m.Keys| && |room| == |room.Keys|;
    assert |m| >= bound ==> room.Keys == m.Keys - {victim};
    var r := room[key := value];
    assert r.Keys == room.Keys + {key} && |r| == |r.Keys|;
  }

  /** Two subsets of `u` overlap at least as much as their sizes force them to. */
  lemma IntersectionSize<T>(a: set<T>, b: set<T>, u: set<T>)
    requires a <= u && b <= u
    ensures |a * b| >= |a| + |b| - |u|
  {
    SubsetSize(a + b, u);
  }
}
