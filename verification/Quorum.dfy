/** Arithmetic of the validator quorum (6666 basis points, rounded up). */
module Quorum {
  import opened Prelude

  const QUORUM_BPS: nat := 6666

  function Required(total: nat): nat {
    DivCeil(Min(total * QUORUM_BPS, U64_MAX), 10_000)
  }

  /** How many validators any two quorums of `total` must share. */
  function Overlap(total: nat): int {
    2 * Required(total) - total
  }

  lemma QuorumsIntersect<T>(a: set<T>, b: set<T>, validators: set<T>)
    requires a <= validators && b <= validators
    requires |a| >= Required(|validators|) && |b| >= Required(|validators|)
    ensures |a * b| >= Overlap(|validators|)
  {
    IntersectionSize(a, b, validators);
  }

  /** The shared part is nonempty exactly up to the size where the saturating product bites. */
  lemma OverlapPositive(n: nat)
    ensures Overlap(n) > 0 <==> 1 <= n < 3_689_348_814_741_912
  {
  }

  lemma RequiredBounds(n: nat)
    ensures Required(n) * 10_000 < n * QUORUM_BPS + 10_000
    ensures n < 15_000 ==> n * QUORUM_BPS <= Required(n) * 10_000
  {
  }

  lemma ThirdOfLargeSets(n: nat)
    requires n >= 15_000
    ensures Overlap(n) < (n - 1) / 3 + 1
  {
    RequiredBounds(n);
    hide Required;
  }

  /** Sizes 3t, 3t + 1 and 3t + 2 need 2t, 2t + 1 and 2t + 2 votes for a third to be shared. */
  lemma QuotaOfThird(t: nat)
    requires t < 5_000
    ensures 3 * t < 15_000 ==> Required(3 * t) >= 2 * t
    ensures 3 * t + 1 < 15_000 ==> (Required(3 * t + 1) >= 2 * t + 1 <==> 3 * t + 1 <= 9_999)
    ensures 3 * t + 2 < 15_000 ==> (Required(3 * t + 2) >= 2 * t + 2 <==> 3 * t + 2 <= 4_999)
  {
    RequiredBounds(3 * t);
    RequiredBounds(3 * t + 1);
    RequiredBounds(3 * t + 2);
    hide Required;
  }

  lemma ThirdOfSmallSets(n: nat, t: nat, r: nat)
    requires n == 3 * t + r && r < 3 && 1 <= n < 15_000
    ensures Overlap(n) >= (n - 1) / 3 + 1
       <==> n <= 4_999 || (n <= 9_999 && r != 2) || (n <= 14_999 && r == 0)
  {
    QuotaOfThird(t);
    hide Required;
    assert (n - 1) / 3 == if r == 0 then t - 1 else t;
  }

  /** The shared part reaches floor((n-1)/3)+1 on exactly these sizes. */
  lemma OverlapThird(n: nat)
    requires n >= 1
    ensures Overlap(n) >= (n - 1) / 3 + 1
       <==> n <= 4_999 || (n <= 9_999 && n % 3 != 2) || (n <= 14_999 && n % 3 == 0)
  {
    hide Overlap;
    if n >= 15_000 {
      ThirdOfLargeSets(n);
    } else {
      ThirdOfSmallSets(n, n / 3, n % 3);
    }
  }

  lemma FirstSizeBelowThird()
    ensures forall n: nat :: 1 <= n < 5_000 ==> Overlap(n) >= (n - 1) / 3 + 1
    ensures Overlap(5_000) < (5_000 - 1) / 3 + 1
  {
    forall n: nat | 1 <= n <= 5_000
      ensures Overlap(n) >= (n - 1) / 3 + 1 <==> n < 5_000
    {
      OverlapThird(n);
    }
  }
}
