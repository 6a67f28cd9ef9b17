/** The clock synchronizer object: pairs of timestamps in, interpolated timestamps out, all in 64 bits. */
module ClockSynchronizer {
  import opened Arithmetic
  import C = ClockSync
  import opened Int64
  import M = MedianFilter
  import W = Median

  const SECOND := C.SECOND

  function Predict64(dt2: int64, drift: int64): int64 { Wrap(dt2 + Div(Wrap(dt2 * drift), SECOND)) }

  function PiStep64(s: C.Servo, error: int): C.Servo {
    var accum := C.Clamp(Wrap(s.accum + error), C.ACCUM_CLAMP);
    C.Servo(Wrap(Div(accum, C.KI) + Div(error, C.KP)), Div(accum, C.KI), accum)
  }

  lemma DivFits(a: int64, b: int)
    requires b > 0
    ensures Fits(Div(a, b))
  {
    DivBounds(a, b);
    MagnitudeOfQuotient(a, b);
  }

  lemma MagnitudeOfQuotient(a: int, b: int)
    requires b > 0
    ensures C.Abs(Div(a, b)) <= C.Abs(a)
  {
    Quotient(C.Abs(a), b);
  }

  lemma Quotient(a: nat, b: nat)
    requires b > 0
    ensures a / b <= a
  {
    MulAtLeast(b, a / b);
    assert a == b * (a / b) + a % b;
  }

  /** The estimate as 64 bit arithmetic computes it. */
  function RawDrift64(dt1: int64, dt2: int64): int64
    requires dt2 > 0
  {
    var product := Wrap(Wrap(dt1 - dt2) * SECOND);
    DivFits(product, dt2);
    Div(product, dt2)
  }

  /** Without overflow the 64 bit values are the exact ones. */
  lemma NoOverflow(s: C.Servo, dt1: int64, dt2: int64, error: int)
    requires Fits(s.drift) && dt2 > 0 && C.Safe(s, dt1, dt2, error)
    ensures Predict64(dt2, s.drift) == C.Predict(dt2, s.drift)
    ensures Wrap(dt1 - Predict64(dt2, s.drift)) == C.PiError(s, dt1, dt2)
    ensures PiStep64(s, error) == C.PiStep(s, error)
  {
  }

  lemma NoDriftOverflow(dt1: int64, dt2: int64)
    requires dt1 > 0 && dt2 > 0 && C.Abs(dt1 - dt2) <= C.MAX_DIFFERENCE
    ensures RawDrift64(dt1, dt2) == C.RawDrift(dt1, dt2)
  {
    C.DriftOverflow(dt1, dt2);
  }

  lemma QuotientTimes(k: int, n: int)
    requires n > 0
    ensures C.Abs(n * Div(k, n)) <= C.Abs(k)
    ensures k <= 0 ==> n * Div(k, n) <= 0
  {
    DivBounds(k, n);
    assert n * Div(k, n) == Div(k, n) * n;
    DivSign(k, n);
  }

  lemma DivSign(k: int, n: int)
    requires n > 0
    ensures k >= 0 ==> Div(k, n) * n >= 0
    ensures k <= 0 ==> Div(k, n) * n <= 0
  {
    MulAtLeastZero(C.Abs(k) / n, n);
    assert -(C.Abs(k) / n) * n == -((C.Abs(k) / n) * n);
  }

  lemma MulAtLeastZero(a: nat, b: nat)
    ensures a * b >= 0
  {
  }

  /** The product of a drift estimate and its own interval is no larger than the dividend of the estimate. */
  lemma DriftProductFits(dt1: int64, dt2: int64)
    requires dt1 > 0 && dt2 > 0 && C.Abs(dt1 - dt2) <= C.MAX_DIFFERENCE
    ensures Fits(dt2 * C.RawDrift(dt1, dt2))
    ensures dt1 <= dt2 ==> dt2 * C.RawDrift(dt1, dt2) <= 0
  {
    C.DriftOverflow(dt1, dt2);
    QuotientTimes((dt1 - dt2) * SECOND, dt2);
  }

  lemma PredictionFits(dt1: int64, dt2: int64)
    requires dt1 > 0 && dt2 > 0 && C.Abs(dt1 - dt2) <= C.MAX_DIFFERENCE
    ensures Fits(C.Predict(dt2, C.RawDrift(dt1, dt2)))
  {
    C.DriftReproducesInterval(dt1, dt2);
    DriftProductFits(dt1, dt2);
    DivSign(dt2 * C.RawDrift(dt1, dt2), SECOND);
  }

  lemma WrappedDifference(t: uint64, d: int64)
    requires d > 0
    ensures Wrap(WrapUnsigned(t + d) - t) == d
  {
  }

  datatype Mode = Default | Pi

  /** The servo after an accepted pair, given the value `used` that passed the filter. */
  function UpdatedServo(mode: Mode, isSync: bool, s: C.Servo, dt1: int64, dt2: int64, used: int64): C.Servo
    requires dt2 > 0
  {
    if !isSync then
      var raw := RawDrift64(dt1, dt2);
      if mode == Pi then C.Servo(raw, raw, Wrap(raw * C.KI)) else C.Servo(raw, s.integral, s.accum)
    else if mode == Pi then PiStep64(s, used)
    else C.Servo(used, s.integral, s.accum)
  }

  /** The value that goes into the filter. */
  function RawValue(mode: Mode, drift: int64, dt1: int64, dt2: int64): int64
    requires dt2 > 0
  {
    if mode == Pi then Wrap(dt1 - Predict64(dt2, drift)) else RawDrift64(dt1, dt2)
  }

  /** The difference of the intervals is in the range of the 64 bit estimate. */
  predicate Near(dt1: int64, dt2: int64) { C.Abs(dt1 - dt2) <= C.MAX_DIFFERENCE }

  /**
    What an accepted pair does, in exact arithmetic: the second pair seeds drift, integral and
    accumulator in Pi mode and the drift alone in default mode; every further one is an update of
    the servo with the offset error, or a new estimate, behind the filter if there is one.
   */
  predicate Exact(mode: Mode, filtered: bool, isSync: bool, s: C.Servo, s': C.Servo, dt1: int64, dt2: int64,
                  used: int64)
    requires dt2 > 0
  {
    && (mode == Default ==> s'.integral == s.integral && s'.accum == s.accum)
    && if !isSync then
         && (Near(dt1, dt2) ==> s'.drift == C.RawDrift(dt1, dt2))
         && (Near(dt1, dt2) && mode == Pi ==>
               (s' == C.Seed(C.RawDrift(dt1, dt2)) <==> Fits(C.RawDrift(dt1, dt2) * 64)))
       else if mode == Pi then
         C.Safe(s, dt1, dt2, used) ==>
           s' == C.PiStep(s, used) && (!filtered ==> used == C.PiError(s, dt1, dt2))
       else s'.drift == used && (!filtered && Near(dt1, dt2) ==> s'.drift == C.RawDrift(dt1, dt2))
  }

  lemma UpdateIsExact(mode: Mode, filtered: bool, isSync: bool, s: C.Servo, dt1: int64, dt2: int64, used: int64)
    requires dt1 > 0 && dt2 > 0 && Fits(s.drift)
    requires isSync && !filtered ==> used == RawValue(mode, s.drift, dt1, dt2)
    ensures Exact(mode, filtered, isSync, s, UpdatedServo(mode, isSync, s, dt1, dt2, used), dt1, dt2, used)
  {
    if Near(dt1, dt2) {
      NoDriftOverflow(dt1, dt2);
    }
    if C.Safe(s, dt1, dt2, used) {
      NoOverflow(s, dt1, dt2, used);
    }
  }

  class Synchronizer {
    const filter: M.Filter
    const mode: Mode
    const useMedian: bool
    var t1: uint64
    var t2: uint64
    var isSync: bool
    var cycleCount: nat
    var lastT1Out: uint64
    var drift: int64
    var integral: int64
    var accum: int64

    ghost predicate Valid()
      reads this, filter, filter.samples, filter.order
    {
      filter.Valid() && cycleCount < 0x1_0000_0000
    }

    function Servo(): C.Servo
      reads this
    {
      C.Servo(drift, integral, accum)
    }

    /** syncInit. */
    constructor (theMode: Mode, medianWindow: nat)
      ensures Valid() && fresh(filter) && fresh(filter.samples) && fresh(filter.order)
      ensures mode == theMode && useMedian == (medianWindow > 0) && !isSync && cycleCount == 0
      ensures Servo() == C.Servo(0, 0, 0) && lastT1Out == 0 && filter.inputs == []
    {
      filter := new M.Filter(medianWindow);
      mode, useMedian := theMode, medianWindow > 0;
      t1, t2, isSync, cycleCount, lastT1Out := 0, 0, false, 0, 0;
      drift, integral, accum := 0, 0, 0;
    }

    /** The optional median filter in front of the drift estimate or the servo. */
    method Filtered(raw: int64) returns (used: int64)
      requires Valid()
      modifies filter, filter.samples, filter.order
      ensures Valid()
      ensures !useMedian ==> used == raw && filter.inputs == old(filter.inputs)
      ensures useMedian ==> filter.inputs == old(filter.inputs) + [raw] && filter.size == old(filter.size) &&
                            W.IsMedian(W.Window(filter.inputs, filter.size), used)
    {
      used := raw;
      if useMedian {
        used := filter.Calc(raw);
      }
    }

    /** Advance the anchor to the new pair. */
    method Advance(newT1: uint64, newT2: uint64)
      requires Valid()
      modifies this`t1, this`t2, this`cycleCount
      ensures Valid() && t1 == newT1 && t2 == newT2 && cycleCount == (old(cycleCount) + 1) % 0x1_0000_0000
    {
      t1, t2 := newT1, newT2;
      cycleCount := (cycleCount + 1) % 0x1_0000_0000;
    }

    /** What a pair does to the servo, given the value `used` that passed the filter. */
    ghost function Updated(dt1: int64, dt2: int64, used: int64): C.Servo
      requires dt2 > 0
      reads this
    {
      UpdatedServo(mode, isSync, Servo(), dt1, dt2, used)
    }

    /** The value that goes into the filter. */
    ghost function Raw(dt1: int64, dt2: int64): int64
      requires dt2 > 0
      reads this
    {
      RawValue(mode, drift, dt1, dt2)
    }

    /** The second pair: the two point estimate, which also seeds the servo. */
    method Bootstrap(dt1: int64, dt2: int64)
      requires dt2 > 0 && !isSync
      modifies this`isSync, this`drift, this`integral, this`accum
      ensures isSync && Servo() == old(Updated(dt1, dt2, 0))
    {
      var raw := RawDrift64(dt1, dt2);
      drift := raw;
      if mode == Pi {
        integral := raw;
        accum := Wrap(raw * C.KI);
      }
      isSync := true;
    }

    /** Apply the filtered value. */
    method Steer(used: int64)
      modifies this`drift, this`integral, this`accum
      ensures Servo() == if mode == Pi then PiStep64(old(Servo()), used) else C.Servo(used, old(integral), old(accum))
    {
      if mode == Pi {
        accum := C.Clamp(Wrap(accum + used), C.ACCUM_CLAMP);
        integral := Div(accum, C.KI);
        drift := Wrap(integral + Div(used, C.KP));
      } else {
        drift := used;
      }
    }

    /** Every further pair: the servo or a new estimate, behind the optional filter. */
    method Track(dt1: int64, dt2: int64) returns (used: int64)
      requires Valid() && dt2 > 0 && isSync
      modifies this`drift, this`integral, this`accum, filter, filter.samples, filter.order
      ensures Valid() && Servo() == old(Updated(dt1, dt2, used))
      ensures !useMedian ==> used == old(Raw(dt1, dt2)) && filter.inputs == old(filter.inputs)
      ensures useMedian ==>
        filter.inputs == old(filter.inputs) + [old(Raw(dt1, dt2))] && filter.size == old(filter.size) &&
                            W.IsMedian(W.Window(filter.inputs, filter.size), used)
    {
      used := Filtered(RawValue(mode, drift, dt1, dt2));
      Steer(used);
    }

    /** A pair that is monotonic: the estimate or the servo, as the mode says. */
    method Accept(dt1: int64, dt2: int64) returns (ghost used: int64)
      requires Valid() && dt1 > 0 && dt2 > 0
      modifies this`isSync, this`drift, this`integral, this`accum, filter, filter.samples, filter.order
      ensures Valid() && isSync && Servo() == old(Updated(dt1, dt2, used))
      ensures FilterTook(dt1, dt2, used)
      ensures Exact(mode, useMedian, old(isSync), old(Servo()), Servo(), dt1, dt2, used)
    {
      used := 0;
      if isSync {
        used := Track(dt1, dt2);
      } else {
        Bootstrap(dt1, dt2);
      }
      UpdateIsExact(mode, useMedian, old(isSync), old(Servo()), dt1, dt2, used);
    }

    /** The filter gets the raw value of every pair behind the bootstrap; `used` is what came out. */
    twostate predicate FilterTook(dt1: int64, dt2: int64, used: int64)
      requires dt2 > 0
      reads this, filter
    {
      if old(isSync) && useMedian then
        && filter.inputs == old(filter.inputs) + [old(Raw(dt1, dt2))]
        && W.IsMedian(W.Window(filter.inputs, filter.size), used)
      else
        filter.inputs == old(filter.inputs) && (old(isSync) ==> used == old(Raw(dt1, dt2)))
    }

    /** The state that a dropped pair leaves as it was. */
    twostate predicate Unmoved()
      reads this, filter
    {
      && t1 == old(t1) && t2 == old(t2) && cycleCount == old(cycleCount)
      && Servo() == old(Servo()) && isSync == old(isSync) && filter.inputs == old(filter.inputs)
    }

    /**
      syncUpdate: the first pair is the anchor, pairs that are not monotonic are dropped, the second
      one gives the two point estimate, and from then on the mode decides.
     */
    method Update(newT1: uint64, newT2: uint64) returns (ghost used: int64)
      requires Valid()
      modifies this`t1, this`t2, this`cycleCount, this`isSync, this`drift, this`integral, this`accum
      modifies filter, filter.samples, filter.order
      ensures Valid()
      ensures old(cycleCount) == 0 ==>
        t1 == newT1 && t2 == newT2 && cycleCount == 1 && Servo() == old(Servo()) && isSync == old(isSync) &&
        filter.inputs == old(filter.inputs)
      ensures old(cycleCount) != 0 ==>
        var dt1, dt2 := Wrap(newT1 - old(t1)), Wrap(newT2 - old(t2));
        if dt1 <= 0 || dt2 <= 0 then Unmoved()
        else
          && t1 == newT1 && t2 == newT2 && isSync && cycleCount == (old(cycleCount) + 1) % 0x1_0000_0000
          && Servo() == old(Updated(dt1, dt2, used)) && FilterTook(dt1, dt2, used)
          && Exact(mode, useMedian, old(isSync), old(Servo()), Servo(), dt1, dt2, used)
    {
      used := 0;
      if cycleCount == 0 {
        Advance(newT1, newT2);
        return;
      }
      var dt1, dt2 := Wrap(newT1 - t1), Wrap(newT2 - t2);
      if dt2 > 0 && dt1 > 0 {
        used := Accept(dt1, dt2);
        Advance(newT1, newT2);
      }
    }

    /** The estimate before it is made monotonic. */
    ghost function Estimate(t: uint64): uint64
      reads this
    {
      WrapUnsigned(t1 + Predict64(Wrap(t - t2), drift))
    }

    /**
      In default mode without the median, the drift that an accepted pair leaves behind reproduces
      its interval: the estimate for the same interval once more is off by at most dt2 / 10^9 + 1 ns.
     */
    lemma EstimateReproduces(dt1: int64, dt2: int64)
      requires dt1 > 0 && dt2 > 0 && C.Abs(dt1 - dt2) <= C.MAX_DIFFERENCE
      requires drift == RawDrift64(dt1, dt2)
      ensures var p := C.Predict(dt2, drift);
        C.Abs(p - dt1) <= dt2 / SECOND + 1 && Estimate(WrapUnsigned(t2 + dt2)) == WrapUnsigned(t1 + p)
    {
      NoDriftOverflow(dt1, dt2);
      C.DriftReproducesInterval(dt1, dt2);
      DriftProductFits(dt1, dt2);
      PredictionFits(dt1, dt2);
      WrappedDifference(t2, dt2);
    }

    /** syncInterpolateT1: the outputs increase strictly, until they reach the last 64 bit value. */
    method Interpolate(t: uint64) returns (r: uint64)
      requires Valid() && isSync
      modifies this`lastT1Out
      ensures Valid() && lastT1Out == r
      ensures r == if Estimate(t) > old(lastT1Out) then Estimate(t) else WrapUnsigned(old(lastT1Out) + 1)
      ensures r > old(lastT1Out) <==> old(lastT1Out) < MODULUS - 1
    {
      var dt1 := Predict64(Wrap(t - t2), drift);
      r := WrapUnsigned(t1 + dt1);
      if r <= lastT1Out {
        r := WrapUnsigned(lastT1Out + 1);
      }
      lastT1Out := r;
    }
  }
}
