/** The integral part of the PI servo over whole runs: errors add up, and the sum saturates at both ends. */
module ClockIntegral {
  import opened Int64
  import opened ClockSync

  function Sum(errors: seq<int>): int {
    if errors == [] then 0 else Sum(errors[..|errors| - 1]) + errors[|errors| - 1]
  }

  /** The servo after one update for each error. */
  function Steered(s: Servo, errors: seq<int>): Servo {
    if errors == [] then s else PiStep(Steered(s, errors[..|errors| - 1]), errors[|errors| - 1])
  }

  lemma SumOfPrefix(errors: seq<int>, i: nat)
    requires i < |errors|
    ensures Sum(errors[..i + 1]) == Sum(errors[..i]) + errors[i]
  {
    assert errors[..i + 1][..i] == errors[..i];
  }

  /**
    No error is lost, however small: as long as the sums stay in the clamp of 500 000 ppb, the
    accumulator is its start plus the sum of all errors, the integral is a 64th of it, and the
    drift is the integral and a quarter of the last error.
   */
  lemma {:induction false} Accumulates(s: Servo, errors: seq<int>)
    requires errors != []
    requires forall i :: 0 < i <= |errors| ==> Abs(s.accum + Sum(errors[..i])) <= 500_000 * 64
    ensures var s' := Steered(s, errors);
      && s'.accum == s.accum + Sum(errors)
      && s'.integral == Div(s.accum + Sum(errors), 64)
      && s'.drift == s'.integral + Div(errors[|errors| - 1], 4)
  {
    var n := |errors| - 1;
    assert errors[..n + 1] == errors;
    SumOfPrefix(errors, n);
    if n > 0 {
      forall i | 0 < i <= n
        ensures Abs(s.accum + Sum(errors[..n][..i])) <= 500_000 * 64
      {
        assert errors[..n][..i] == errors[..i];
      }
      Accumulates(s, errors[..n]);
    }
  }

  lemma {:induction false} SumOfEqual(e: int, n: nat)
    ensures Sum(seq(n, _ => e)) == e * n
  {
    if n > 0 {
      assert seq(n, _ => e)[..n - 1] == seq(n - 1, _ => e);
      SumOfEqual(e, n - 1);
      assert e * n == e * (n - 1) + e;
    }
  }

  /** There is no dead zone: 64 times in a row an error of one nanosecond moves the integral by one, either way. */
  lemma SmallErrorsMove(s: Servo, n: nat)
    requires n > 0 && 0 <= s.accum && s.accum + 64 * n <= 500_000 * 64
    ensures Steered(s, seq(64 * n, _ => 1)).integral == Div(s.accum, 64) + n
    ensures Steered(s.(accum := -s.accum), seq(64 * n, _ => -1)).integral == -(Div(s.accum, 64) + n)
  {
    MoveBy(s, 64 * n, 1);
    MoveBy(s.(accum := -s.accum), 64 * n, -1);
    assert (s.accum + 64 * n) / 64 == s.accum / 64 + n;
  }

  lemma MoveBy(s: Servo, n: nat, e: int)
    requires n > 0 && (e == 1 || e == -1) && 0 <= e * s.accum && e * s.accum + n <= 500_000 * 64
    ensures Steered(s, seq(n, _ => e)).integral == Div(s.accum + e * n, 64)
  {
    var errors := seq(n, _ => e);
    forall i | 0 < i <= n
      ensures Sum(errors[..i]) == e * i
    {
      assert errors[..i] == seq(i, _ => e);
      SumOfEqual(e, i);
    }
    assert errors[..n] == errors;
    Accumulates(s, errors);
  }

  lemma {:induction false} SumSign(errors: seq<int>)
    ensures (forall i :: 0 <= i < |errors| ==> errors[i] >= 0) ==> Sum(errors) >= 0
    ensures (forall i :: 0 <= i < |errors| ==> errors[i] <= 0) ==> Sum(errors) <= 0
  {
    if errors != [] {
      SumSign(errors[..|errors| - 1]);
    }
  }

  /**
    Saturation at both ends: errors of one sign drive the accumulator to the sum or to the end of
    its clamp, whichever comes first, and there the integral is 500 000 ppb.
   */
  lemma {:induction false} Saturates(s: Servo, errors: seq<int>)
    requires Abs(s.accum) <= 500_000 * 64
    ensures (forall i :: 0 <= i < |errors| ==> errors[i] >= 0) ==>
      Steered(s, errors).accum ==
        if s.accum + Sum(errors) <= 500_000 * 64 then s.accum + Sum(errors) else 500_000 * 64
    ensures (forall i :: 0 <= i < |errors| ==> errors[i] <= 0) ==>
      Steered(s, errors).accum ==
        if s.accum + Sum(errors) >= -500_000 * 64 then s.accum + Sum(errors) else -500_000 * 64
  {
    if errors != [] {
      SumSign(errors[..|errors| - 1]);
      Saturates(s, errors[..|errors| - 1]);
    }
  }

  /** At the end of the clamp the integral is 500 000 ppb, and the first error of the other sign leaves it. */
  lemma LeavesSaturation(s: Servo, error: int)
    requires 0 <= error <= 500_000 * 64
    ensures s.accum == 500_000 * 64 ==>
              PiStep(s, 0).integral == 500_000 && PiStep(s, -error).accum == s.accum - error
    ensures s.accum == -500_000 * 64 ==>
              PiStep(s, 0).integral == -500_000 && PiStep(s, error).accum == s.accum + error
  {
  }

  /** The error is positive exactly if the target clock is ahead of the prediction, and then the drift does not fall. */
  lemma ErrorSign(s: Servo, dt1: int, dt2: int)
    requires dt2 > 0 && Abs(s.accum) <= 500_000 * 64
    ensures PiError(s, dt1, dt2) > 0 <==> dt1 > Predict(dt2, s.drift)
    ensures PiError(s, dt1, dt2) > 0 ==> PiStep(s, PiError(s, dt1, dt2)).drift >= Div(s.accum, 64)
    ensures PiError(s, dt1, dt2) < 0 ==> PiStep(s, PiError(s, dt1, dt2)).drift <= Div(s.accum, 64)
  {
  }
}
