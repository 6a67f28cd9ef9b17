/** The arithmetic of the clock synchronizer: the two point drift estimate, the prediction and the PI servo. */
module ClockSync {
  import opened Arithmetic
  import opened Int64

  /** Nanoseconds per second, and so the unit of a drift in parts per billion. */
  const SECOND := 1_000_000_000
  const KP := 4
  const KI := 64
  const INTEGRAL_CLAMP := 500_000
  const ACCUM_CLAMP := INTEGRAL_CLAMP * KI

  function Abs(x: int): (a: nat) { if x >= 0 then x else -x }

  // ---------------------------------------------------------------- exact arithmetic

  function RawDrift(dt1: int, dt2: int): int
    requires dt2 > 0
  {
    Div((dt1 - dt2) * SECOND, dt2)
  }

  function Predict(dt2: int, drift: int): int { dt2 + Div(dt2 * drift, SECOND) }

  /** Drift, integral and error accumulator of the PI servo. */
  datatype Servo = Servo(drift: int, integral: int, accum: int)

  function Clamp(x: int, limit: int): int { if x > limit then limit else if x < -limit then -limit else x }

  /** One PI update with an offset error. */
  function PiStep(s: Servo, error: int): Servo {
    var accum := Clamp(s.accum + error, ACCUM_CLAMP);
    Servo(Div(accum, KI) + Div(error, KP), Div(accum, KI), accum)
  }

  function Seed(raw: int): Servo { Servo(raw, raw, raw * KI) }

  /** The offset error of a pair against the current drift. */
  function PiError(s: Servo, dt1: int, dt2: int): int { dt1 - Predict(dt2, s.drift) }

  // ---------------------------------------------------------------- the drift estimate

  lemma DivOfShifted(k: int, r: int, n: int)
    requires n > 0
    ensures k >= 0 && 0 <= r <= k * n ==> k - (r / n + 1) <= Div(k * n - r, n) <= k
    ensures k <= 0 && k * n <= r <= 0 ==> k <= Div(k * n - r, n) <= k + ((-r) / n + 1)
  {
    DivBounds(k * n - r, n);
    var d := Div(k * n - r, n);
    if k >= 0 && 0 <= r <= k * n {
      NearQuotient(k, d, r, n);
    } else if k <= 0 && k * n <= r <= 0 {
      NearQuotient(-k, -d, -r, n);
    }
  }

  lemma MulLess(a: int, b: int, n: nat)
    requires a < b
    ensures a * n + n <= b * n
  {
    MulAtLeast(b - a, n);
    assert (b - a) * n == b * n - a * n;
  }

  lemma NearQuotient(k: int, d: int, r: int, n: int)
    requires n > 0 && 0 <= r && d * n <= k * n - r < d * n + n
    ensures k - (r / n + 1) <= d <= k
  {
    var q := r / n;
    assert r < q * n + n;
    assert (d + q + 1) * n == d * n + q * n + n;
    if d > k {
      MulLess(k, d, n);
    } else if d + q + 1 < k {
      MulLess(d + q + 1, k, n);
    }
  }

  /** The estimated drift reproduces the measured interval up to dt2 / 10^9 + 1 ns, and never overshoots it. */
  lemma DriftReproducesInterval(dt1: int, dt2: int)
    requires dt2 > 0
    ensures var p := Predict(dt2, RawDrift(dt1, dt2));
      && (dt1 >= dt2 ==> dt1 - (dt2 / SECOND + 1) <= p <= dt1)
      && (dt1 <= dt2 ==> dt1 <= p <= dt1 + (dt2 / SECOND + 1))
  {
    var k := dt1 - dt2;
    var drift := RawDrift(dt1, dt2);
    DivBounds(k * SECOND, dt2);
    var r := k * SECOND - drift * dt2;
    assert dt2 * drift == k * SECOND - r;
    if k >= 0 {
      assert drift * dt2 >= 0;
    } else {
      assert drift * dt2 <= 0;
    }
    DivOfShifted(k, r, SECOND);
  }

  /** The largest |dt1 - dt2| in nanoseconds for which the estimate does not overflow. */
  const MAX_DIFFERENCE := 9_223_372_036

  /** The product of the estimate fits 64 bits exactly if the two intervals differ by at most about 9.2 s. */
  lemma DriftOverflow(dt1: int64, dt2: int64)
    requires dt1 > 0 && dt2 > 0
    ensures Fits(dt1 - dt2)
    ensures Fits((dt1 - dt2) * SECOND) <==> Abs(dt1 - dt2) <= MAX_DIFFERENCE
  {
  }

  // ---------------------------------------------------------------- the servo: clamps and overflow

  /** After every PI update the integral stays in its clamp. */
  lemma IntegralClamped(s: Servo, error: int)
    ensures var s' := PiStep(s, error);
      && Abs(s'.accum) <= ACCUM_CLAMP && Abs(s'.integral) <= INTEGRAL_CLAMP
      && s'.integral * KI <= s'.accum + KI && s'.accum - KI <= s'.integral * KI
  {
  }

  lemma NatQuotientWithin(x: nat, q: nat, r: nat, n: nat, m: nat)
    requires x == q * n + r && r < n
    ensures q <= m <==> x < (m + 1) * n
  {
    if q <= m {
      MulLess(q, m + 1, n);
    } else {
      MulLess(m, q, n);
      assert (m + 1) * n == m * n + n;
    }
  }

  /** When a quotient is small. */
  lemma QuotientWithin(a: int, n: int, m: nat)
    requires n > 0
    ensures Abs(Div(a, n)) <= m <==> Abs(a) < (m + 1) * n
  {
    NatQuotientWithin(Abs(a), Abs(a) / n, Abs(a) % n, n, m);
  }

  /**
    The seed of the bootstrap is not clamped: it lies in the clamp of the servo exactly if the two
    intervals differ by less than 500 001 ppb of the second one.
   */
  lemma SeedClampedIff(dt1: int, dt2: int)
    requires dt2 > 0
    ensures var s := Seed(RawDrift(dt1, dt2));
      (Abs(s.integral) <= INTEGRAL_CLAMP && Abs(s.accum) <= ACCUM_CLAMP) <==>
        Abs(dt1 - dt2) * SECOND < (INTEGRAL_CLAMP + 1) * dt2
  {
    QuotientWithin((dt1 - dt2) * SECOND, dt2, INTEGRAL_CLAMP);
  }

  /** One that does not: clocks that differ by 0.1 percent. */
  lemma SeedIsNotClamped()
    ensures RawDrift(1_001_000_000, SECOND) == 1_000_000 > INTEGRAL_CLAMP
    ensures Seed(1_000_000).integral > INTEGRAL_CLAMP && Seed(1_000_000).accum > ACCUM_CLAMP
  {
  }

  const MAX_INTERVAL := 10 * SECOND
  const MAX_ERROR := 1_000_000_000
  const MAX_DRIFT := 500_000_000

  /** All intermediate values of one PI update fit 64 bits. */
  predicate Safe(s: Servo, dt1: int, dt2: int, error: int) {
    && Fits(dt2 * s.drift)
    && Fits(Predict(dt2, s.drift))
    && Fits(PiError(s, dt1, dt2))
    && Fits(s.accum + error)
    && Fits(PiStep(s, error).drift)
  }

  /** One pair of a run, and the error after the optional median filter. */
  datatype Cycle = Cycle(dt1: int, dt2: int, filtered: int)

  predicate Bounded(s: Servo) {
    Abs(s.drift) <= MAX_DRIFT && Abs(s.accum) <= MAX_DRIFT * KI
  }

  predicate BoundedCycle(s: Servo, c: Cycle) {
    0 < c.dt2 <= MAX_INTERVAL && Abs(PiError(s, c.dt1, c.dt2)) <= MAX_ERROR && Abs(c.filtered) <= MAX_ERROR
  }

  /** The run from `s` through the cycles keeps intervals and errors in their bounds. */
  predicate BoundedRun(s: Servo, run: seq<Cycle>)
    decreases |run|
  {
    run == [] || (BoundedCycle(s, run[0]) && BoundedRun(PiStep(s, run[0].filtered), run[1..]))
  }

  predicate SafeRun(s: Servo, run: seq<Cycle>)
    decreases |run|
  {
    run == [] || (Safe(s, run[0].dt1, run[0].dt2, run[0].filtered) && SafeRun(PiStep(s, run[0].filtered), run[1..]))
  }

  lemma ProductBound(a: int, b: int, m: nat, n: nat)
    requires 0 <= a <= m && Abs(b) <= n
    ensures Abs(a * b) <= m * n
  {
    if b >= 0 {
      assert a * b <= m * b <= m * n;
    } else {
      assert a * (-b) <= m * (-b) <= m * n;
      assert a * b == -(a * (-b));
    }
  }

  lemma CycleSafe(s: Servo, c: Cycle)
    requires Bounded(s) && BoundedCycle(s, c)
    ensures Safe(s, c.dt1, c.dt2, c.filtered) && Bounded(PiStep(s, c.filtered))
  {
    ProductBound(c.dt2, s.drift, MAX_INTERVAL, MAX_DRIFT);
    DivBounds(c.dt2 * s.drift, SECOND);
  }

  /** With intervals up to 10 s and a bounded seed and errors, no PI run of any length overflows. */
  lemma {:induction false} RunSafe(s: Servo, run: seq<Cycle>)
    requires Bounded(s) && BoundedRun(s, run)
    ensures SafeRun(s, run)
    decreases |run|
  {
    if run != [] {
      CycleSafe(s, run[0]);
      RunSafe(PiStep(s, run[0].filtered), run[1..]);
    }
  }

  /** A bootstrap whose intervals differ by at most half of the second one seeds a bounded servo. */
  lemma SeedBounded(dt1: int, dt2: int)
    requires dt2 > 0
    ensures Bounded(Seed(RawDrift(dt1, dt2))) <==> Abs(dt1 - dt2) * SECOND < (MAX_DRIFT + 1) * dt2
  {
    QuotientWithin((dt1 - dt2) * SECOND, dt2, MAX_DRIFT);
  }

  /** So no PI run behind such a bootstrap overflows. */
  lemma BootstrappedRunSafe(dt1: int, dt2: int, run: seq<Cycle>)
    requires dt2 > 0 && 2 * Abs(dt1 - dt2) <= dt2 && BoundedRun(Seed(RawDrift(dt1, dt2)), run)
    ensures SafeRun(Seed(RawDrift(dt1, dt2)), run)
  {
    SeedBounded(dt1, dt2);
    RunSafe(Seed(RawDrift(dt1, dt2)), run);
  }
}
