/**
 Retry schedules. Durations are whole nanoseconds, as in the standard library's `Duration`; the
 failed-retry policy counts whole seconds in a `u64`.
 */
module Schedules {
  import opened Basics

  const TRANSIENT_BACKOFF_BASE: nat := 30_000_000_000
  const TRANSIENT_BACKOFF_MAX: nat := 600_000_000_000

  function Pow2(n: nat): (r: nat)
    ensures r >= 1
  {
    if n == 0 then 1 else 2 * Pow2(n - 1)
  }

  lemma {:induction false} Pow2Monotone(a: nat, b: nat)
    requires a <= b
    ensures Pow2(a) <= Pow2(b)
    decreases b - a
  {
    if a < b { Pow2Monotone(a, b - 1); }
  }

  /** `n.ilog2()`: the position of the highest set bit. */
  function Ilog2(n: nat): (r: nat)
    requires n > 0
    ensures Pow2(r) <= n < Pow2(r + 1)
  {
    if n == 1 then 0 else 1 + Ilog2(n / 2)
  }

  lemma Ilog2AtLeast(n: nat, e: nat)
    requires n >= Pow2(e)
    ensures n > 0 && Ilog2(n) >= e
  {
    var l := Ilog2(n);
    if l < e { Pow2Monotone(l + 1, e); }
  }

  lemma Ilog2Unique(n: nat, e: nat)
    requires Pow2(e) <= n < Pow2(e + 1)
    ensures n > 0 && Ilog2(n) == e
  {
    Ilog2AtLeast(n, e);
    var l := Ilog2(n);
    if l > e { Pow2Monotone(e + 1, l); }
  }

  lemma Pow2Values()
    ensures Pow2(4) == 16 && Pow2(5) == 32
  {
  }

  /** The doubling schedule both retry paths promise: 30 s, 60 s, 120 s, … capped at 10 min. */
  function Doubling(k: nat): nat {
    Min(TRANSIENT_BACKOFF_BASE * Pow2(k), TRANSIENT_BACKOFF_MAX)
  }

  lemma DoublingCapped(k: nat)
    ensures k >= 5 ==> Doubling(k) == TRANSIENT_BACKOFF_MAX
    ensures Doubling(k) >= TRANSIENT_BACKOFF_BASE
  {
    if k >= 5 {
      Pow2Monotone(5, k);
      Pow2Values();
    }
  }

  lemma DoublingMonotone(a: nat, b: nat)
    requires a <= b
    ensures TRANSIENT_BACKOFF_BASE <= Doubling(a) <= Doubling(b) <= TRANSIENT_BACKOFF_MAX
  {
    Pow2Monotone(a, b);
    DoublingCapped(a);
  }

  lemma DoublingUncapped(k: nat)
    requires k <= 4
    ensures Doubling(k) == TRANSIENT_BACKOFF_BASE * Pow2(k)
  {
    Pow2Monotone(k, 4);
    Pow2Values();
  }

  /** Completed 30 s steps past the window, plus one; the wait is truncated to whole seconds. */
  function Steps(excess: nat): (r: nat)
    ensures r == excess / 30_000_000_000 + 1
  {
    (excess / 1_000_000_000) / 30 + 1
  }

  lemma StepsMonotone(a: nat, b: nat)
    requires a <= b
    ensures Steps(a) <= Steps(b)
  {
  }

  lemma StepsOfMultiple(excess: nat, m: nat)
    requires excess == TRANSIENT_BACKOFF_BASE * m
    ensures Steps(excess) == m + 1
  {
  }

  lemma StepsBelowMultiple(excess: nat, m: nat)
    requires excess < TRANSIENT_BACKOFF_BASE * m
    ensures Steps(excess) <= m
  {
  }

  /** The schedule in seconds. */
  lemma DoublingInSeconds()
    ensures Doubling(0) == 30_000_000_000 && Doubling(1) == 60_000_000_000 && Doubling(2) == 120_000_000_000
    ensures Doubling(3) == 240_000_000_000 && Doubling(4) == 480_000_000_000
    ensures forall k: nat :: k >= 5 ==> Doubling(k) == 600_000_000_000
  {
    forall k: nat | k >= 5 ensures Doubling(k) == 600_000_000_000 { DoublingCapped(k); }
  }

  // ----- the counter-based schedule (`record_transient_failure`) -----

  /** Backoff scheduled by the `attempts`-th transient failure of a tracked transaction. */
  function TransientBackoff(attempts: nat): nat {
    Min(TRANSIENT_BACKOFF_BASE * Pow2(Min(SatSub(attempts, 1), 31)), TRANSIENT_BACKOFF_MAX)
  }

  lemma TransientIsDoubling(k: nat)
    ensures TransientBackoff(k + 1) == Doubling(k)
  {
    if k > 31 {
      DoublingCapped(k);
      DoublingCapped(31);
    }
  }

  // ----- the counter-free schedule (`NotReadyPolicy::next_delay`) -----

  datatype NotReadyPolicy = NotReadyPolicy(pollInterval: nat, pollWindow: nat)
  {
    function NextDelay(waited: nat): nat {
      if waited < pollWindow then pollInterval
      else
        var exp := Min(Ilog2(Steps(waited - pollWindow)), 31);
        Min(TRANSIENT_BACKOFF_BASE * Pow2(exp), TRANSIENT_BACKOFF_MAX)
    }

    /** Waiting time at the k-th poll, polling first at the instant the window closes. */
    ghost function WaitedAt(k: nat): nat {
      if k == 0 then pollWindow else WaitedAt(k - 1) + NextDelay(WaitedAt(k - 1))
    }

    /** Past the window the delay is the doubling one of the largest power of two in the wait. */
    lemma DelayFromSteps(waited: nat)
      requires waited >= pollWindow
      ensures NextDelay(waited) == Doubling(Ilog2(Steps(waited - pollWindow)))
    {
      var e := Ilog2(Steps(waited - pollWindow));
      if e > 31 {
        DoublingCapped(e);
        DoublingCapped(31);
      }
    }

    /** Past the window, delays stay within [30 s, 10 min] and never shrink as waiting grows. */
    lemma DelaysMonotone(a: nat, b: nat)
      requires pollWindow <= a <= b
      ensures TRANSIENT_BACKOFF_BASE <= NextDelay(a) <= NextDelay(b) <= TRANSIENT_BACKOFF_MAX
    {
      DelayFromSteps(a);
      DelayFromSteps(b);
      var m, n := Steps(a - pollWindow), Steps(b - pollWindow);
      StepsMonotone(a - pollWindow, b - pollWindow);
      Ilog2AtLeast(n, Ilog2(m));
      DoublingMonotone(Ilog2(m), Ilog2(n));
    }

    lemma DelayForSteps(waited: nat, k: nat, n: nat)
      requires waited >= pollWindow && n == Steps(waited - pollWindow) && Pow2(k) <= n < Pow2(k + 1)
      ensures NextDelay(waited) == Doubling(k)
    {
      DelayFromSteps(waited);
      Ilog2Unique(n, k);
    }

    /** A wait of exactly 30 * (2^k - 1) s is answered with the k-th doubling delay. */
    lemma DelayAtMultiple(waited: nat, k: nat)
      requires waited == pollWindow + TRANSIENT_BACKOFF_BASE * (Pow2(k) - 1)
      ensures NextDelay(waited) == Doubling(k)
    {
      StepsOfMultiple(waited - pollWindow, Pow2(k) - 1);
      DelayForSteps(waited, k, Pow2(k));
    }

    /**
     Every delay: the polling interval inside the window; past it, with an excess of at least
     30 * (2^k - 1) s and less than 30 * (2^(k+1) - 1) s, the k-th doubling delay.
     */
    lemma DelayExactly(waited: nat, k: nat)
      ensures waited < pollWindow ==> NextDelay(waited) == pollInterval
      ensures var low, high := TRANSIENT_BACKOFF_BASE * (Pow2(k) - 1), TRANSIENT_BACKOFF_BASE * (Pow2(k + 1) - 1);
              pollWindow + low <= waited < pollWindow + high ==> NextDelay(waited) == Doubling(k)
    {
      var low, high := TRANSIENT_BACKOFF_BASE * (Pow2(k) - 1), TRANSIENT_BACKOFF_BASE * (Pow2(k + 1) - 1);
      if pollWindow + low <= waited < pollWindow + high {
        var n := Steps(waited - pollWindow);
        StepsMonotone(low, waited - pollWindow);
        StepsOfMultiple(low, Pow2(k) - 1);
        StepsBelowMultiple(waited - pollWindow, Pow2(k + 1) - 1);
        DelayForSteps(waited, k, n);
      }
    }

    lemma DelayLate(waited: nat)
      requires waited >= pollWindow + TRANSIENT_BACKOFF_BASE * 31
      ensures NextDelay(waited) == TRANSIENT_BACKOFF_MAX
    {
      Pow2Values();
      DelayAtMultiple(pollWindow + TRANSIENT_BACKOFF_BASE * 31, 5);
      DoublingCapped(5);
      DelaysMonotone(pollWindow + TRANSIENT_BACKOFF_BASE * 31, waited);
    }

    /** Up to the cap, the k-th poll comes 30 * (2^k - 1) s past the window. */
    lemma {:induction false} ExcessEarly(k: nat)
      requires k <= 5
      ensures WaitedAt(k) == pollWindow + TRANSIENT_BACKOFF_BASE * (Pow2(k) - 1)
      ensures NextDelay(WaitedAt(k)) == Doubling(k)
    {
      if k > 0 {
        ExcessEarly(k - 1);
        DoublingUncapped(k - 1);
      }
      DelayAtMultiple(WaitedAt(k), k);
    }

    lemma {:induction false} ExcessLate(k: nat)
      requires k >= 5
      ensures WaitedAt(k) >= pollWindow + TRANSIENT_BACKOFF_BASE * 31
      ensures NextDelay(WaitedAt(k)) == Doubling(k)
    {
      if k == 5 {
        ExcessEarly(5);
        Pow2Values();
      } else {
        ExcessLate(k - 1);
        DelayLate(WaitedAt(k));
        DoublingCapped(k);
      }
    }

    /**
     The counter-free schedule refines the counter-based one: the k-th delay past the window is the
     backoff after the (k+1)-th transient failure, for every k.
     */
    lemma SameAsTransient(k: nat)
      ensures NextDelay(WaitedAt(k)) == TransientBackoff(k + 1) == Doubling(k)
    {
      if k <= 5 { ExcessEarly(k); } else { ExcessLate(k); }
      TransientIsDoubling(k);
    }

    /** Polls that come late, by any amounts, never back off less than the counter would. */
    lemma {:induction false} LatePollsBackOffNoLess(waits: seq<nat>, k: nat)
      requires k < |waits| && waits[0] >= pollWindow
      requires forall i :: 0 < i < |waits| ==> waits[i] >= waits[i - 1] + NextDelay(waits[i - 1])
      ensures waits[k] >= WaitedAt(k) >= pollWindow
      ensures NextDelay(waits[k]) >= TransientBackoff(k + 1)
    {
      if k > 0 {
        LatePollsBackOffNoLess(waits, k - 1);
        DelaysMonotone(WaitedAt(k - 1), waits[k - 1]);
      }
      DelaysMonotone(WaitedAt(k), waits[k]);
      SameAsTransient(k);
    }
  }

  // ----- the failed-retry policy (`FailedRetryPolicy`) -----

  function SatMul64(a: nat, b: nat): nat {
    Min(a * b, U64_MAX)
  }

  /** `1u64.checked_shl(n).unwrap_or(u64::MAX)`. */
  function ShiftOrMax(n: nat): nat {
    if n < 64 then Pow2(n) else U64_MAX
  }

  datatype FailedRetryPolicy = FailedRetryPolicy(maxAttempts: nat, initialSecs: nat, maxSecs: nat)
  {
    predicate InRange() {
      maxAttempts <= U32_MAX && initialSecs <= U64_MAX && maxSecs <= U64_MAX
    }

    /** What configuration loading accepts. */
    predicate Validate() {
      0 < initialSecs <= maxSecs
    }

    function Backoff(attempts: nat): nat {
      Min(SatMul64(initialSecs, ShiftOrMax(attempts)), maxSecs)
    }

    /** Saturation never shows: the spacing is exactly min(initial * 2^n, max) for every n. */
    lemma BackoffExact(attempts: nat)
      requires InRange()
      ensures Backoff(attempts) == Min(initialSecs * Pow2(attempts), maxSecs)
    {
      if attempts >= 64 {
        Pow2Plus64(attempts - 64);
        AtLeastFactor(initialSecs, Pow2(attempts));
        AtLeastFactor(initialSecs, U64_MAX);
      }
    }

    /** Configuration accepts exactly the policies whose first wait is the configured one and positive. */
    lemma ValidIff()
      requires InRange()
      ensures Validate() <==> 0 < initialSecs && Backoff(0) == initialSecs
    {
      BackoffExact(0);
    }

    /** A validated policy spaces attempts by at least the initial wait, growing up to the cap. */
    lemma BackoffGrows(a: nat, b: nat)
      requires InRange() && Validate() && a <= b
      ensures 0 < initialSecs <= Backoff(a) <= Backoff(b) <= maxSecs
    {
      BackoffExact(a);
      BackoffExact(b);
      Pow2Monotone(a, b);
      ProductMonotone(initialSecs, Pow2(a), Pow2(b));
      AtLeastFactor(Pow2(a), initialSecs);
    }
  }

  lemma AtLeastFactor(a: nat, b: nat)
    ensures a * b == b * a
    ensures a == 0 ==> a * b == 0
    ensures a > 0 ==> a * b >= b
  {
  }

  lemma ProductMonotone(c: nat, a: nat, b: nat)
    requires a <= b
    ensures c * a <= c * b
  {
  }

  lemma Pow2Plus4(n: nat)
    ensures Pow2(n + 4) == 16 * Pow2(n)
  {
    assert Pow2(n + 2) == 2 * Pow2(n + 1) == 4 * Pow2(n);
    assert Pow2(n + 4) == 2 * Pow2(n + 3) == 4 * Pow2(n + 2);
  }

  lemma Pow2Plus16(n: nat)
    ensures Pow2(n + 16) == 65536 * Pow2(n)
  {
    Pow2Plus4(n);
    Pow2Plus4(n + 4);
    Pow2Plus4(n + 8);
    Pow2Plus4(n + 12);
  }

  lemma Pow2Plus64(n: nat)
    ensures Pow2(n + 64) == (U64_MAX + 1) * Pow2(n)
  {
    Pow2Plus16(n);
    Pow2Plus16(n + 16);
    Pow2Plus16(n + 32);
    Pow2Plus16(n + 48);
  }
}
