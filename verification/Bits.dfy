/** Bits of a 64-bit machine word: shifting by `n` places is shifting by one place `n` times. */
module Bits {

  function Double(w: bv64): bv64 {
    w << 1
  }

  function Or(v: bv64, w: bv64): bv64 {
    v | w
  }

  function And(v: bv64, w: bv64): bv64 {
    v & w
  }

  predicate Meets(v: bv64, w: bv64) {
    And(v, w) != 0
  }

  function Shl(w: bv64, n: nat): bv64 {
    if n == 0 then w else Double(Shl(w, n - 1))
  }

  /** The word with bit `i` alone. */
  function Unit(i: nat): bv64 {
    Shl(1, i)
  }

  predicate Has(w: bv64, i: nat) {
    Meets(w, Unit(i))
  }

  // ---- facts about whole words ----

  lemma DoubleClearsLow(w: bv64)
    ensures !Meets(1, Double(w)) && !Meets(Double(w), 1)
  {
  }

  lemma DoubleKeepsDisjoint(v: bv64, w: bv64)
    requires !Meets(v, w)
    ensures !Meets(Double(v), Double(w))
  {
  }

  const TOP: bv64 := 0x8000_0000_0000_0000

  lemma DoubleMeets(w: bv64, u: bv64)
    requires !Meets(u, TOP)
    ensures Meets(Double(w), Double(u)) <==> Meets(w, u)
  {
  }

  lemma OrNothing(w: bv64, v: bv64, u: bv64)
    requires !Meets(w, u)
    ensures Meets(Or(w, v), u) <==> Meets(v, u)
  {
    hide And, Or;
    AndAbsorbs(w, v, u);
  }

  lemma AndAbsorbs(w: bv64, v: bv64, u: bv64)
    requires And(w, u) == 0
    ensures And(Or(w, v), u) == And(v, u)
  {
  }

  lemma OrCovers(w: bv64, v: bv64, u: bv64)
    requires Meets(w, u)
    ensures Meets(Or(w, v), u)
  {
  }

  lemma OrMeets(w: bv64, v: bv64, u: bv64)
    ensures Meets(Or(w, v), u) <==> Meets(w, u) || Meets(v, u)
  {
    hide Meets, Or;
    if Meets(w, u) {
      OrCovers(w, v, u);
    } else {
      OrNothing(w, v, u);
    }
  }

  lemma MeetsItself(u: bv64)
    ensures Meets(u, u) <==> u != 0
    ensures !Meets(0, u) && !Meets(u, 0)
  {
  }

  // ---- unit words ----

  lemma {:induction false} UnitsDisjoint(i: nat, j: nat)
    requires i != j
    ensures !Meets(Unit(i), Unit(j))
  {
    hide Double, Meets;
    if i == 0 {
      DoubleClearsLow(Unit(j - 1));
    } else if j == 0 {
      DoubleClearsLow(Unit(i - 1));
    } else {
      UnitsDisjoint(i - 1, j - 1);
      DoubleKeepsDisjoint(Unit(i - 1), Unit(j - 1));
    }
  }

  lemma {:induction false} ShlSplit(w: bv64, m: nat, n: nat)
    ensures Shl(w, m + n) == Shl(Shl(w, m), n)
  {
    hide Double;
    if n > 0 {
      ShlSplit(w, m, n - 1);
    }
  }

  lemma {:induction false} ZeroStays(n: nat)
    ensures Shl(0, n) == 0
  {
    if n > 0 {
      ZeroStays(n - 1);
    }
  }

  lemma ShlStep(w: bv64, n: nat)
    ensures Shl(w, 0) == w && Shl(w, n + 1) == Double(Shl(w, n))
  {
  }

  lemma ShlSeven(w: bv64)
    ensures Shl(w, 7) == Double(Double(Double(Double(Double(Double(Double(w)))))))
  {
    hide Double;
    ShlStep(w, 0);
    ShlStep(w, 1);
    ShlStep(w, 2);
    ShlStep(w, 3);
    ShlStep(w, 4);
    ShlStep(w, 5);
    ShlStep(w, 6);
  }

  lemma SevenDoublings(n: nat, w: bv64, r: bv64)
    requires Unit(n) == w && r == Double(Double(Double(Double(Double(Double(Double(w)))))))
    ensures Unit(n + 7) == r
  {
    hide Double;
    ShlSplit(1, n, 7);
    ShlSeven(w);
  }

  lemma Doublings()
    ensures Double(Double(Double(Double(Double(Double(Double(1))))))) == 0x80
    ensures Double(Double(Double(Double(Double(Double(Double(0x80))))))) == 0x4000
    ensures Double(Double(Double(Double(Double(Double(Double(0x4000))))))) == 0x20_0000
    ensures Double(Double(Double(Double(Double(Double(Double(0x20_0000))))))) == 0x1000_0000
    ensures Double(Double(Double(Double(Double(Double(Double(0x1000_0000))))))) == 0x8_0000_0000
    ensures Double(Double(Double(Double(Double(Double(Double(0x8_0000_0000))))))) == 0x400_0000_0000
    ensures Double(Double(Double(Double(Double(Double(Double(0x400_0000_0000))))))) == 0x2_0000_0000_0000
    ensures Double(Double(Double(Double(Double(Double(Double(0x2_0000_0000_0000))))))) == 0x100_0000_0000_0000
    ensures Double(Double(Double(Double(Double(Double(Double(0x100_0000_0000_0000))))))) == TOP
  {
  }

  lemma TopUnit()
    ensures Unit(63) == TOP
  {
    ShlStep(1, 0);
    Doublings();
    hide Double, Shl;
    SevenDoublings(0, 1, 0x80);
    SevenDoublings(7, 0x80, 0x4000);
    SevenDoublings(14, 0x4000, 0x20_0000);
    SevenDoublings(21, 0x20_0000, 0x1000_0000);
    SevenDoublings(28, 0x1000_0000, 0x8_0000_0000);
    SevenDoublings(35, 0x8_0000_0000, 0x400_0000_0000);
    SevenDoublings(42, 0x400_0000_0000, 0x2_0000_0000_0000);
    SevenDoublings(49, 0x2_0000_0000_0000, 0x100_0000_0000_0000);
    SevenDoublings(56, 0x100_0000_0000_0000, TOP);
  }

  lemma UnitNonZero(i: nat)
    requires i < 64
    ensures Meets(Unit(i), Unit(i))
    ensures i < 63 ==> !Meets(Unit(i), TOP)
  {
    TopUnit();
    ShlSplit(1, i, 63 - i);
    ZeroStays(63 - i);
    MeetsItself(Unit(i));
    if i < 63 {
      UnitsDisjoint(i, 63);
    }
  }

  // ---- reading bits ----

  lemma SetBit(w: bv64, j: nat, i: nat)
    requires i < 64 && j < 64
    ensures Has(Or(w, Unit(j)), i) <==> i == j || Has(w, i)
  {
    hide Meets, Or, Unit;
    OrMeets(w, Unit(j), Unit(i));
    UnitNonZero(i);
    if i != j {
      UnitsDisjoint(j, i);
    }
  }

  lemma OnlyLow(i: nat)
    requires i < 64
    ensures Has(1, i) <==> i == 0
  {
    ShlStep(1, 0);
    hide Meets, Shl;
    UnitNonZero(0);
    if i > 0 {
      UnitsDisjoint(0, i);
    }
  }

  lemma StepBit(w: bv64, i: nat)
    requires i < 63
    ensures Has(Double(w), i + 1) <==> Has(w, i)
    ensures !Has(Double(w), 0)
  {
    ShlStep(1, i);
    hide Meets, Shl, Double;
    UnitNonZero(i);
    DoubleMeets(w, Unit(i));
    DoubleClearsLow(w);
  }

  /** After a left shift, a bit is what the bit that many places lower was; the lowest places are clear. */
  lemma {:induction false} ShiftedBit(w: bv64, n: nat, i: nat)
    requires i < 64
    ensures Has(Shl(w, n), i) <==> n <= i && Has(w, i - n)
  {
    hide Has, Double;
    if n > 0 {
      if i > 0 {
        ShiftedBit(w, n - 1, i - 1);
        StepBit(Shl(w, n - 1), i - 1);
      } else {
        StepBit(Shl(w, n - 1), 0);
      }
    }
  }
}
