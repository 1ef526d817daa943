/**
 * When an agent's periodic refresh starts: the wall clock is rounded up to a multiple of
 * the poll interval, so that agents with synchronised clocks poll together.
 */
module PollSchedule {
  /** Nanoseconds in a millisecond. */
  const MILLI := 1_000_000

  /** The poll interval, in milliseconds; configuration rejects anything below one second. */
  type Interval = t: nat | 1_000 <= t < 0x1_0000_0000_0000_0000 witness 5_000

  /** The number of intervals since the epoch, a started one counted whole. */
  function Steps(ms: nat, t: Interval): nat {
    ms / t + (if ms % t > 0 then 1 else 0)
  }

  /** The chosen boundary in epoch milliseconds, for a clock reading in epoch nanoseconds. */
  function Boundary(now: nat, t: Interval): nat {
    (Steps(now / MILLI, t) * t) % 0x1_0000_0000_0000_0000
  }

  /** How long the agent sleeps, in nanoseconds; a boundary already past means no sleep. */
  function Wait(now: nat, t: Interval): nat {
    if Boundary(now, t) * MILLI >= now then Boundary(now, t) * MILLI - now else 0
  }

  /** Clocks for which the 64-bit conversion of the boundary loses nothing. */
  predicate InRange(now: nat) {
    now / MILLI < 0x8000_0000_0000_0000
  }

  /** The clock readings that lead to the k-th boundary: they start one millisecond late. */
  predicate InWindow(now: nat, t: Interval, k: nat) {
    (k * t - t + 1) * MILLI <= now < (k * t + 1) * MILLI
  }

  lemma StepsBound(ms: nat, t: Interval)
    ensures Steps(ms, t) * t - t < ms <= Steps(ms, t) * t || (ms == 0 && Steps(ms, t) == 0)
  {
    assert ms == (ms / t) * t + ms % t;
    assert (ms / t + 1) * t == (ms / t) * t + t;
    if ms == 0 {
      assert ms / t == 0;
    }
  }

  lemma {:induction false} Factors(k: nat, n: nat, t: nat)
    ensures k <= n ==> k * t <= n * t
    ensures k < n ==> k * t + t <= n * t
    decreases n
  {
    if k < n {
      assert n * t == (n - 1) * t + t;
      Factors(k, n - 1, t);
    }
  }

  lemma StepsFit(ms: nat, t: Interval)
    requires ms < 0x8000_0000_0000_0000
    ensures Steps(ms, t) * t < 0x1_0000_0000_0000_0000
  {
    StepsBound(ms, t);
    var n := Steps(ms, t);
    if n <= 1 {
      Factors(n, 1, t);
    } else {
      Factors(2, n, t);
    }
  }

  /** The boundary is the k-th multiple of the interval exactly for the readings in the k-th window. */
  lemma BoundaryExact(now: nat, t: Interval, k: nat)
    requires InRange(now)
    ensures Boundary(now, t) == k * t <==> InWindow(now, t, k)
  {
    var ms := now / MILLI;
    var n := Steps(ms, t);
    StepsFit(ms, t);
    StepsBound(ms, t);
    assert Boundary(now, t) == n * t;
    if n < k {
      Factors(n, k, t);
    } else if k < n {
      Factors(k, n, t);
    }
  }

  /**
   * The boundary is a multiple of the interval, the wait is shorter than one interval, and
   * the agent wakes at the boundary or less than a millisecond after it.
   */
  lemma WakesAtBoundary(now: nat, t: Interval)
    requires InRange(now)
    ensures exists k: nat :: Boundary(now, t) == k * t
    ensures 0 <= Wait(now, t) < t * MILLI
    ensures Boundary(now, t) * MILLI <= now + Wait(now, t) < (Boundary(now, t) + 1) * MILLI
  {
    var n := Steps(now / MILLI, t);
    StepsFit(now / MILLI, t);
    StepsBound(now / MILLI, t);
    assert Boundary(now, t) == n * t;
  }

  /** Two agents choose one boundary exactly when no other boundary's window separates their clocks. */
  lemma SameBoundaryIffSameWindow(a: nat, b: nat, t: Interval)
    requires InRange(a) && InRange(b)
    ensures Boundary(a, t) == Boundary(b, t) <==> exists k :: InWindow(a, t, k) && InWindow(b, t, k)
  {
    WakesAtBoundary(a, t);
    var k: nat :| Boundary(a, t) == k * t;
    BoundaryExact(a, t, k);
    BoundaryExact(b, t, k);
    if n :| InWindow(a, t, n) && InWindow(b, t, n) {
      BoundaryExact(a, t, n);
      BoundaryExact(b, t, n);
    }
  }

  /** The window one would expect: after the k-th multiple, up to and including the next. */
  predicate Between(now: nat, t: Interval, k: nat) {
    k * t * MILLI < now <= (k * t + t) * MILLI
  }

  /**
   * Within the expected window the next multiple is chosen, except in its first millisecond:
   * there the reading truncates to the multiple just passed and the agent does not wait.
   */
  lemma FirstMillisecondMissesNext(now: nat, t: Interval, k: nat)
    requires InRange(now) && Between(now, t, k)
    ensures now < (k * t + 1) * MILLI ==> Boundary(now, t) == k * t && Wait(now, t) == 0
    ensures now >= (k * t + 1) * MILLI ==> Boundary(now, t) == k * t + t
  {
    BoundaryExact(now, t, k);
    BoundaryExact(now, t, k + 1);
    assert (k + 1) * t == k * t + t;
    if now < (k * t + 1) * MILLI {
      assert InWindow(now, t, k);
    } else {
      assert InWindow(now, t, k + 1);
    }
  }

  /** Two clocks of one expected window that choose different boundaries. */
  lemma SplitWindow()
    ensures Between(5_000_500_000, 5_000, 1) && Between(5_001_000_000, 5_000, 1)
    ensures Boundary(5_000_500_000, 5_000) == 5_000 && Boundary(5_001_000_000, 5_000) == 10_000
  {
    FirstMillisecondMissesNext(5_000_500_000, 5_000, 1);
    FirstMillisecondMissesNext(5_001_000_000, 5_000, 1);
  }
}
