/** Backoff arithmetic on time.Duration, a signed 64-bit count of nanoseconds
    (events/retry.go, events/aws/sqs/sqs.go). */
module Backoff {
  import opened GoInts

  const MAX_DOUBLINGS := 16
  const SECOND := 1_000_000_000
  const CEILING := 30 * SECOND

  function Pow2(k: nat): (p: nat)
    ensures p >= 1
  {
    if k == 0 then 1 else 2 * Pow2(k - 1)
  }

  /** base << k. */
  function Shl(base: int, k: nat): int { Wrap(base * Pow2(k)) }

  /** The doublings ExponentialBackoff applies after the given attempt. */
  function Doublings(attempt: int): (k: nat)
    ensures k < MAX_DOUBLINGS
  {
    if attempt < 1 then 0
    else if attempt > MAX_DOUBLINGS then MAX_DOUBLINGS - 1
    else attempt - 1
  }

  function Exponential(base: int, attempt: int): int { Shl(base, Doublings(attempt)) }

  /** events/aws/sqs: 1s doubling to a 30s ceiling. */
  function SqsDefault(attempt: int): int {
    var d := Exponential(SECOND, attempt);
    if d < CEILING then d else CEILING
  }

  lemma {:induction false} Pow2Monotone(j: nat, k: nat)
    requires j <= k
    ensures Pow2(j) <= Pow2(k)
    decreases k
  {
    if j < k { Pow2Monotone(j, k - 1); }
  }

  lemma Pow2Fifteen()
    ensures Pow2(15) == 0x8000
  {
    assert Pow2(4) == 16;
    assert Pow2(8) == 256;
    assert Pow2(12) == 4096;
  }

  /** Every wait is exactly base doubled, for every attempt, if and only if base << 15 fits:
      base within (2^63-1) >> 15, and as far below zero. A larger base wraps at the cap. */
  lemma ExactIffShiftFits(base: int)
    requires IsInt(base)
    ensures (forall attempt: int :: Exponential(base, attempt) == base * Pow2(Doublings(attempt)))
            <==> -0x1_0000_0000_0000 <= base < 0x1_0000_0000_0000
  {
    Pow2Fifteen();
    if -0x1_0000_0000_0000 <= base < 0x1_0000_0000_0000 {
      forall attempt: int ensures Exponential(base, attempt) == base * Pow2(Doublings(attempt)) {
        ShiftFits(base, Doublings(attempt));
      }
    } else {
      assert Doublings(16) == 15;
      assert !IsInt(base * 0x8000);
      assert Exponential(base, 16) != base * Pow2(Doublings(16));
    }
  }

  lemma ShiftFits(base: int, k: nat)
    requires -0x1_0000_0000_0000 <= base < 0x1_0000_0000_0000 && k <= 15
    ensures Shl(base, k) == base * Pow2(k)
    ensures base >= 0 ==> Shl(base, k) >= base
  {
    Pow2Fifteen();
    Pow2Monotone(k, 15);
    ScaledWithin(base, Pow2(k));
  }

  lemma ScaledWithin(base: int, p: nat)
    requires -0x1_0000_0000_0000 <= base < 0x1_0000_0000_0000 && 1 <= p <= 0x8000
    ensures IsInt(base * p)
    ensures base >= 0 ==> base * p >= base
  {
    if base >= 0 {
      ProductMonotone(base, 1, p);
      ProductMonotone(base, p, 0x8000);
    } else {
      ProductMonotone(-base, p, 0x8000);
      assert base * p == -((-base) * p);
    }
  }

  lemma ProductMonotone(x: int, a: int, b: int)
    requires x >= 0 && a <= b
    ensures x * a <= x * b
  {
    assert x * b == x * a + x * (b - a);
  }

  /** Waits never shrink as the failures go on. */
  lemma ExponentialNondecreasing(base: int, a: int, b: int)
    requires 0 <= base < 0x1_0000_0000_0000 && a <= b
    ensures Exponential(base, a) <= Exponential(base, b)
  {
    ShiftFits(base, Doublings(a));
    ShiftFits(base, Doublings(b));
    Pow2Monotone(Doublings(a), Doublings(b));
    ProductMonotone(base, Pow2(Doublings(a)), Pow2(Doublings(b)));
  }

  /** The waits between n attempts: after attempts 1 to n - 1. */
  function TotalWait(base: int, n: nat): int {
    if n <= 1 then 0 else TotalWait(base, n - 1) + Exponential(base, n - 1)
  }

  lemma GeometricStep(base: int, k: nat)
    ensures base * (Pow2(k) - 1) + base * Pow2(k) == base * (Pow2(k + 1) - 1)
  {
    var p := Pow2(k);
    assert Pow2(k + 1) == 2 * p;
    assert base * (p - 1) == base * p - base;
    assert base * (2 * p - 1) == base * p + base * p - base;
  }

  lemma LinearStep(x: int, m: nat)
    ensures m * x + x == (m + 1) * x
  {
  }

  /** Up to the cap the waits sum to a geometric series. */
  lemma {:induction false} GeometricWaits(base: int, n: nat)
    requires 0 <= base < 0x1_0000_0000_0000 && 1 <= n <= 17
    ensures TotalWait(base, n) == base * (Pow2(n - 1) - 1)
  {
    if n > 1 {
      GeometricWaits(base, n - 1);
      ShiftFits(base, n - 2);
      GeometricStep(base, n - 2);
    }
  }

  /** Beyond it every further wait is the capped one. */
  lemma {:induction false} CappedWaits(base: int, m: nat, capped: int)
    requires capped == Shl(base, MAX_DOUBLINGS - 1)
    ensures TotalWait(base, 17 + m) == TotalWait(base, 17) + m * capped
  {
    if m > 0 {
      CappedWaits(base, m - 1, capped);
      assert TotalWait(base, 17 + m) == TotalWait(base, 17 + (m - 1)) + capped;
      LinearStep(capped, m - 1);
    }
  }

  /** The sum of the waits over n attempts, in closed form. */
  lemma TotalWaitClosedForm(base: int, n: nat)
    requires 0 <= base < 0x1_0000_0000_0000 && n >= 1
    ensures TotalWait(base, n) == if n <= 17 then base * (Pow2(n - 1) - 1)
                                  else base * (Pow2(16) - 1) + (n - 17) * (base * Pow2(15))
  {
    if n <= 17 {
      GeometricWaits(base, n);
    } else {
      GeometricWaits(base, 17);
      ShiftFits(base, 15);
      CappedWaits(base, n - 17, base * Pow2(15));
    }
  }

  /** The k-th failure in a row waits min(2^(k-1), 30) seconds, for every k: no overflow. */
  lemma SqsDefaultIsCappedDoubling(k: nat)
    requires k >= 1
    ensures SqsDefault(k) == (if Pow2(k - 1) < 30 then Pow2(k - 1) else 30) * SECOND
  {
    ShiftFits(SECOND, Doublings(k));
    Pow2Fifteen();
    if k > MAX_DOUBLINGS {
      Pow2Monotone(15, k - 1);
    }
  }

  lemma SqsDefaultNondecreasing(a: nat, b: nat)
    requires 1 <= a <= b
    ensures SECOND <= SqsDefault(a) <= SqsDefault(b) <= CEILING
  {
    ExponentialNondecreasing(SECOND, a, b);
    ShiftFits(SECOND, Doublings(a));
  }
}
