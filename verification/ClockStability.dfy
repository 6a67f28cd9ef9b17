/** Whether the PI servo of the clock synchronizer keeps its own errors bounded. */
module ClockStability {
  import opened Arithmetic
  import opened ClockSync
  import opened Int64

  /**
    The errors that a drift of at most `drift` allows, for intervals up to `t` and clocks that
    differ by at most `j`.
   */
  function ErrorBound(t: nat, j: nat, drift: nat): nat { j + t * drift / SECOND }

  /** A drift bound that reproduces itself in one cycle. */
  predicate SelfBound(t: nat, j: nat, drift: nat) {
    INTEGRAL_CLAMP + ErrorBound(t, j, drift) / KP <= drift
  }

  lemma PairBound(s: Servo, t: nat, j: nat, drift: nat, dt1: int, dt2: int)
    requires Abs(s.drift) <= drift && 0 < dt2 <= t && Abs(dt1 - dt2) <= j
    ensures Abs(PiError(s, dt1, dt2)) <= ErrorBound(t, j, drift)
  {
    ProductBound(dt2, s.drift, t, drift);
    DivMonotone(dt2 * s.drift, t * drift);
  }

  lemma StepBound(s: Servo, t: nat, j: nat, drift: nat, e: int)
    requires SelfBound(t, j, drift) && Abs(e) <= ErrorBound(t, j, drift)
    ensures Abs(PiStep(s, e).drift) <= drift
  {
  }

  lemma DivMonotone(x: int, y: nat)
    requires Abs(x) <= y
    ensures Abs(Div(x, SECOND)) <= y / SECOND
  {
  }

  function Max(a: nat, b: nat): nat { if a >= b then a else b }

  /**
    A run of pairs whose intervals are at most `t` and differ by at most `j`. The servo gets the
    error of the pair, or the median of some errors of the run: nothing larger than the worst so far.
   */
  predicate TrackedRun(s: Servo, run: seq<Cycle>, t: nat, j: nat, worst: nat)
    decreases |run|
  {
    run == [] ||
    var c := run[0];
    var w := Max(worst, Abs(PiError(s, c.dt1, c.dt2)));
    && 0 < c.dt2 <= t && Abs(c.dt1 - c.dt2) <= j && Abs(c.filtered) <= w
    && TrackedRun(PiStep(s, c.filtered), run[1..], t, j, w)
  }

  predicate ErrorsWithin(s: Servo, run: seq<Cycle>, e: nat)
    decreases |run|
  {
    run == [] || (Abs(PiError(s, run[0].dt1, run[0].dt2)) <= e && ErrorsWithin(PiStep(s, run[0].filtered), run[1..], e))
  }

  /** With a drift bound that reproduces itself, bounded jitter of the pairs keeps all errors of the run bounded. */
  lemma {:induction false} ErrorsStayBounded(s: Servo, run: seq<Cycle>, t: nat, j: nat, drift: nat, worst: nat)
    requires SelfBound(t, j, drift) && Abs(s.drift) <= drift
    requires worst <= ErrorBound(t, j, drift) && TrackedRun(s, run, t, j, worst)
    ensures ErrorsWithin(s, run, ErrorBound(t, j, drift))
    decreases |run|
  {
    if run != [] {
      var c := run[0];
      PairBound(s, t, j, drift, c.dt1, c.dt2);
      StepBound(s, t, j, drift, c.filtered);
      ErrorsStayBounded(PiStep(s, c.filtered), run[1..], t, j, drift, Max(worst, Abs(PiError(s, c.dt1, c.dt2))));
    }
  }

  /** There is such a bound exactly for intervals below 4 s, the inverse of the proportional gain. */
  lemma SelfBoundExists(t: nat, j: nat)
    ensures (exists drift: nat :: SelfBound(t, j, drift)) <==> t < KP * SECOND
  {
    if t < KP * SECOND {
      var gap := KP * SECOND - t;
      var c := INTEGRAL_CLAMP + j / KP + 2;
      ScaledBound(t, j, gap, c);
      assert SelfBound(t, j, c * (KP * SECOND));
    } else {
      forall drift: nat
        ensures !SelfBound(t, j, drift)
      {
        LongIntervals(t, drift);
      }
    }
  }

  lemma LongIntervals(t: nat, drift: nat)
    requires t >= KP * SECOND
    ensures t * drift / SECOND >= KP * drift
  {
    assert t * drift >= KP * SECOND * drift;
  }

  lemma ScaledProduct(t: nat, c: nat)
    ensures t * (c * (KP * SECOND)) / SECOND == KP * (c * t)
  {
    assert t * (c * (KP * SECOND)) == SECOND * (KP * (c * t));
  }

  lemma LinearBound(j: nat, c: nat, x: nat, y: nat)
    requires c >= INTEGRAL_CLAMP + j / KP + 2 && y >= c
    ensures INTEGRAL_CLAMP + (j + KP * x) / KP <= x + y
  {
  }

  lemma ScaledBound(t: nat, j: nat, gap: nat, c: nat)
    requires gap > 0 && t + gap == KP * SECOND && c >= INTEGRAL_CLAMP + j / KP + 2
    ensures SelfBound(t, j, c * (KP * SECOND))
  {
    ScaledProduct(t, c);
    MulLess(0, gap, c);
    assert c * (t + gap) == c * t + c * gap;
    LinearBound(j, c, c * t, c * gap);
  }

  // ---------------------------------------------------------------- runs of identical clocks

  /** `n` pairs of two identical clocks, `t` apart, without a filter. */
  function IdenticalClocks(s: Servo, t: nat, n: nat): (run: seq<Cycle>)
    ensures |run| == n
    decreases n
  {
    if n == 0 then []
    else
      var e := PiError(s, t, t);
      [Cycle(t, t, e)] + IdenticalClocks(PiStep(s, e), t, n - 1)
  }

  function After(s: Servo, run: seq<Cycle>): Servo
    decreases |run|
  {
    if run == [] then s else After(PiStep(s, run[0].filtered), run[1..])
  }

  lemma {:induction false} IdenticalIsTracked(s: Servo, t: nat, n: nat, worst: nat)
    requires t > 0
    ensures TrackedRun(s, IdenticalClocks(s, t, n), t, 0, worst)
    decreases n
  {
    if n > 0 {
      var e := PiError(s, t, t);
      assert IdenticalClocks(s, t, n)[1..] == IdenticalClocks(PiStep(s, e), t, n - 1);
      IdenticalIsTracked(PiStep(s, e), t, n - 1, Max(worst, Abs(e)));
    }
  }

  /** A drift from which the servo does not come back: 1.6 percent. */
  const RUNAWAY := 2 * ACCUM_CLAMP / KP

  /** From 4 s on, the proportional term alone turns such a drift over and enlarges it. */
  lemma OneCycleGrows(s: Servo, t: nat)
    requires t >= KP * SECOND && Abs(s.drift) >= RUNAWAY && Abs(s.accum) <= ACCUM_CLAMP
    ensures var e := PiError(s, t, t); var s' := PiStep(s, e);
      Abs(e) >= KP * Abs(s.drift) && Abs(s'.drift) >= Abs(s.drift) + INTEGRAL_CLAMP && Abs(s'.accum) <= ACCUM_CLAMP
  {
    LongIntervals(t, Abs(s.drift));
    assert t * -s.drift == -(t * s.drift);
    var e := PiError(s, t, t);
    assert e == if s.drift >= 0 then -(t * Abs(s.drift) / SECOND) else t * Abs(s.drift) / SECOND;
  }

  /** So identical clocks drive the estimated drift away without end. */
  lemma {:induction false} DriftRunsAway(s: Servo, t: nat, n: nat)
    requires t >= KP * SECOND && Abs(s.drift) >= RUNAWAY && Abs(s.accum) <= ACCUM_CLAMP
    ensures Abs(After(s, IdenticalClocks(s, t, n)).drift) >= Abs(s.drift) + n * INTEGRAL_CLAMP
    decreases n
  {
    if n > 0 {
      var e := PiError(s, t, t);
      OneCycleGrows(s, t);
      assert IdenticalClocks(s, t, n)[1..] == IdenticalClocks(PiStep(s, e), t, n - 1);
      DriftRunsAway(PiStep(s, e), t, n - 1);
    }
  }

  /** And no bound holds for the errors. */
  lemma {:induction false} ErrorsExceed(s: Servo, t: nat, n: nat, bound: nat)
    requires t >= KP * SECOND && Abs(s.drift) >= RUNAWAY && Abs(s.accum) <= ACCUM_CLAMP
    requires n > 0 && bound < Abs(s.drift) + (n - 1) * INTEGRAL_CLAMP
    ensures !ErrorsWithin(s, IdenticalClocks(s, t, n), bound)
    decreases n
  {
    var e := PiError(s, t, t);
    OneCycleGrows(s, t);
    assert IdenticalClocks(s, t, n)[1..] == IdenticalClocks(PiStep(s, e), t, n - 1);
    if n > 1 {
      ErrorsExceed(PiStep(s, e), t, n - 1, bound);
    }
  }

  // ---------------------------------------------------------------- the limit is 4 s

  /** `bound` holds for the errors of every run from a servo whose drift is at most `drift`. */
  ghost predicate BoundsErrors(t: nat, j: nat, drift: nat, bound: nat) {
    forall s: Servo, run: seq<Cycle> :: Abs(s.drift) <= drift && TrackedRun(s, run, t, j, 0) ==>
      ErrorsWithin(s, run, bound)
  }

  ghost predicate HasErrorBound(t: nat, j: nat, drift: nat) { exists bound: nat :: BoundsErrors(t, j, drift, bound) }

  lemma ShortIntervalsStable(t: nat, j: nat, drift: nat)
    requires t < KP * SECOND
    ensures HasErrorBound(t, j, drift)
  {
    var c := INTEGRAL_CLAMP + j / KP + 2 + drift;
    var d := c * (KP * SECOND);
    ScaledBound(t, j, KP * SECOND - t, c);
    forall s: Servo, run: seq<Cycle> | Abs(s.drift) <= drift && TrackedRun(s, run, t, j, 0)
      ensures ErrorsWithin(s, run, ErrorBound(t, j, d))
    {
      ErrorsStayBounded(s, run, t, j, d, 0);
    }
    assert BoundsErrors(t, j, drift, ErrorBound(t, j, d));
  }

  lemma LongIntervalsUnstable(t: nat, bound: nat)
    requires t >= KP * SECOND
    ensures !BoundsErrors(t, 0, RUNAWAY, bound)
  {
    var s := Servo(RUNAWAY, 0, 0);
    IdenticalIsTracked(s, t, bound + 1, 0);
    ErrorsExceed(s, t, bound + 1, bound);
  }

  /**
    Whatever the jitter of the pairs and the drift at the start, the errors of all runs stay within a
    bound - exactly if the intervals are shorter than 4 s, the inverse of the proportional gain.
   */
  lemma StableIff(t: nat)
    ensures (forall j: nat, drift: nat :: HasErrorBound(t, j, drift)) <==> t < KP * SECOND
  {
    if t < KP * SECOND {
      forall j: nat, drift: nat
        ensures HasErrorBound(t, j, drift)
      {
        ShortIntervalsStable(t, j, drift);
      }
    } else {
      forall bound: nat
        ensures !BoundsErrors(t, 0, RUNAWAY, bound)
      {
        LongIntervalsUnstable(t, bound);
      }
      assert !HasErrorBound(t, 0, RUNAWAY);
    }
  }

  // ---------------------------------------------------------------- from the first pairs on

  /** A bootstrap seed of 1.7 percent leaves the servo in the runaway after one pair of identical clocks. */
  const SEED_RUNAWAY := 17_000_000

  lemma SeedRunsAway(raw: int, t: nat)
    requires t >= KP * SECOND && raw >= SEED_RUNAWAY
    ensures var s := Seed(raw); var s' := PiStep(s, PiError(s, t, t));
      Abs(s'.drift) >= RUNAWAY && Abs(s'.accum) <= ACCUM_CLAMP
  {
    LongIntervals(t, raw);
    assert PiError(Seed(raw), t, t) == -(t * raw / SECOND);
  }

  lemma SeedExceeds(raw: int, t: nat, bound: nat)
    requires t >= KP * SECOND && raw >= SEED_RUNAWAY
    ensures !ErrorsWithin(Seed(raw), IdenticalClocks(Seed(raw), t, bound + 2), bound)
  {
    var s := Seed(raw);
    var e := PiError(s, t, t);
    SeedRunsAway(raw, t);
    assert IdenticalClocks(s, t, bound + 2)[1..] == IdenticalClocks(PiStep(s, e), t, bound + 1);
    ErrorsExceed(PiStep(s, e), t, bound + 1, bound);
  }

  /** `bound` holds for the errors of every run behind a bootstrap with a pair that keeps the limits of the run. */
  ghost predicate BoundsBootstrapped(t: nat, j: nat, bound: nat) {
    forall dt1: int, dt2: int, run: seq<Cycle> ::
      0 < dt1 && 0 < dt2 <= t && Abs(dt1 - dt2) <= j && TrackedRun(Seed(RawDrift(dt1, dt2)), run, t, j, 0) ==>
        ErrorsWithin(Seed(RawDrift(dt1, dt2)), run, bound)
  }

  ghost predicate HasBootstrapBound(t: nat, j: nat) { exists bound: nat :: BoundsBootstrapped(t, j, bound) }

  lemma ProductAtLeast(a: nat, b: nat)
    requires b > 0
    ensures a * b >= a
  {
    MulAtLeast(b, a);
  }

  lemma SeedWithin(dt1: int, dt2: int, j: nat)
    requires dt2 > 0 && Abs(dt1 - dt2) <= j
    ensures Abs(Seed(RawDrift(dt1, dt2)).drift) <= j * SECOND
  {
    ProductAtLeast(j * SECOND + 1, dt2);
    QuotientWithin((dt1 - dt2) * SECOND, dt2, j * SECOND);
    assert Abs((dt1 - dt2) * SECOND) == Abs(dt1 - dt2) * SECOND;
  }

  lemma ShortBootstrapStable(t: nat, j: nat)
    requires t < KP * SECOND
    ensures HasBootstrapBound(t, j)
  {
    ShortIntervalsStable(t, j, j * SECOND);
    var bound: nat :| BoundsErrors(t, j, j * SECOND, bound);
    forall dt1: int, dt2: int, run: seq<Cycle> |
      0 < dt1 && 0 < dt2 <= t && Abs(dt1 - dt2) <= j && TrackedRun(Seed(RawDrift(dt1, dt2)), run, t, j, 0)
      ensures ErrorsWithin(Seed(RawDrift(dt1, dt2)), run, bound)
    {
      SeedWithin(dt1, dt2, j);
    }
    assert BoundsBootstrapped(t, j, bound);
  }

  /** The difference of two intervals that seeds the runaway. */
  function RunawayJitter(t: nat): nat { SEED_RUNAWAY * t / SECOND + 1 }

  lemma RunawaySeed(t: nat)
    requires t > 0
    ensures RawDrift(t + RunawayJitter(t), t) >= SEED_RUNAWAY
  {
    var k := RunawayJitter(t);
    assert k * SECOND > SEED_RUNAWAY * t;
    NatQuotientWithin(k * SECOND, k * SECOND / t, k * SECOND % t, t, SEED_RUNAWAY - 1);
  }

  lemma LongBootstrapUnstable(t: nat, bound: nat)
    requires t >= KP * SECOND
    ensures !BoundsBootstrapped(t, RunawayJitter(t), bound)
  {
    var k := RunawayJitter(t);
    var raw := RawDrift(t + k, t);
    RunawaySeed(t);
    IdenticalIsTracked(Seed(raw), t, bound + 2, 0);
    LessJitter(Seed(raw), IdenticalClocks(Seed(raw), t, bound + 2), t, k, 0);
    SeedExceeds(raw, t, bound);
  }

  lemma {:induction false} LessJitter(s: Servo, run: seq<Cycle>, t: nat, j: nat, worst: nat)
    requires TrackedRun(s, run, t, 0, worst)
    ensures TrackedRun(s, run, t, j, worst)
    decreases |run|
  {
    if run != [] {
      var c := run[0];
      LessJitter(PiStep(s, c.filtered), run[1..], t, j, Max(worst, Abs(PiError(s, c.dt1, c.dt2))));
    }
  }

  /**
    The same for whole runs from the first two pairs on: for every jitter there is a bound on the
    errors of all runs, exactly if the intervals are shorter than 4 s.
   */
  lemma BootstrappedStableIff(t: nat)
    ensures (forall j: nat :: HasBootstrapBound(t, j)) <==> t < KP * SECOND
  {
    if t < KP * SECOND {
      forall j: nat
        ensures HasBootstrapBound(t, j)
      {
        ShortBootstrapStable(t, j);
      }
    } else {
      forall bound: nat
        ensures !BoundsBootstrapped(t, RunawayJitter(t), bound)
      {
        LongBootstrapUnstable(t, bound);
      }
      assert !HasBootstrapBound(t, RunawayJitter(t));
    }
  }

  // ---------------------------------------------------------------- at 10 s

  /** At 10 s the drift error more than doubles in one cycle of identical clocks. */
  lemma UnstableAtTenSeconds(s: Servo)
    requires 10 <= Abs(s.drift) && Abs(s.accum) <= 16 * Abs(s.drift)
    ensures var s' := PiStep(s, PiError(s, MAX_INTERVAL, MAX_INTERVAL));
      Abs(s'.drift) >= 2 * Abs(s.drift) && Abs(s'.accum) <= 16 * Abs(s'.drift)
  {
    var e := PiError(s, MAX_INTERVAL, MAX_INTERVAL);
    assert e == -10 * s.drift;
  }

  function Power2(n: nat): nat { if n == 0 then 1 else 2 * Power2(n - 1) }

  /** So it grows exponentially, however small it was. */
  lemma {:induction false} DriftDoubles(s: Servo, n: nat)
    requires 10 <= Abs(s.drift) && Abs(s.accum) <= 16 * Abs(s.drift)
    ensures Abs(After(s, IdenticalClocks(s, MAX_INTERVAL, n)).drift) >= Power2(n) * Abs(s.drift)
    decreases n
  {
    if n > 0 {
      var e := PiError(s, MAX_INTERVAL, MAX_INTERVAL);
      var s' := PiStep(s, e);
      UnstableAtTenSeconds(s);
      assert IdenticalClocks(s, MAX_INTERVAL, n)[1..] == IdenticalClocks(s', MAX_INTERVAL, n - 1);
      DriftDoubles(s', n - 1);
      Doubled(Power2(n - 1), Abs(s.drift), Abs(s'.drift));
    }
  }

  lemma Doubled(p: nat, a: nat, b: nat)
    requires b >= 2 * a
    ensures p * b >= 2 * p * a
  {
    assert p * (b - 2 * a) >= 0;
    assert p * (b - 2 * a) == p * b - 2 * p * a;
  }
}
