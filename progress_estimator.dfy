/**
 Remaining-time and ETA estimation from progress samples
 (`ProgressEstimator.EstimateRemaining`).

 The source computes in IEEE doubles; this model computes exactly over
 `real`, so the branch structure and the closed-form results can be stated
 and proved. Times are `DateTime` ticks; elapsed times are seconds since the
 first cleaned sample; `Remaining` is a `TimeSpan` in ticks, `Eta` a point
 in ticks, and the `+∞` rate of the "already at 100%" answer is a tag. The
 two conversions that can throw, `TimeSpan.FromSeconds` and
 `DateTime.AddSeconds`, are part of the model: an estimate either returns a
 result or throws.
 */
module ProgressEstimator {
  import opened Wrappers
  import opened ProgressPoints
  import DurationText

  /** `TimeSpan.TicksPerSecond`, as a real for the arithmetic on seconds. */
  const TicksPerSecond: real := DurationText.TicksPerSecond as real

  /** `DateTime.MaxValue.Ticks`. */
  const MaxDateTicks: int := 3155378975999999999

  /** `Math.Abs(denom) < 1e-9`: the least-squares denominator is degenerate. */
  const DenominatorTolerance: real := 0.000000001

  /** `slope > 1e-12`: a rate that counts as positive progress. */
  const RateTolerance: real := 0.000000000001

  const NullSamplesMessage := "samples is null"
  const TooFewSamplesMessage := "need at least 2 samples to estimate"
  const NoTimeVariationMessage := "insufficient time variation among samples"
  const NonPositiveRateMessage := "non-positive progress rate (can't estimate)"

  /** Percentage per second, or the `double.PositiveInfinity` of the 100% shortcut. */
  datatype Rate = PerSecond(value: real) | PositiveInfinity

  /** `record EstimationResult(bool Success, TimeSpan? Remaining, DateTime? Eta,
      double RatePerSecond, string? ErrorMessage)`; `remaining` and `eta` in
      ticks. */
  datatype EstimationResult = EstimationResult(
    success: bool,
    remaining: Option<DurationText.TimeSpan>,
    eta: Option<real>,
    rate: Rate,
    errorMessage: Option<string>)

  /** What a call of `EstimateRemaining` does: return a result, or throw
      because `TimeSpan.FromSeconds` or `DateTime.AddSeconds` was asked for
      a value outside its range. */
  datatype Estimation = Returned(result: EstimationResult) | Thrown

  /** A fitted line `percentage = intercept + slope * elapsedSeconds`. */
  datatype Line = Line(slope: real, intercept: real)

  function Failure(message: string): EstimationResult
  {
    EstimationResult(false, None, None, PerSecond(0.0), Some(message))
  }

  /** What every returned answer of the estimator looks like: a failure
      carries no remaining time, no ETA, rate 0 and a reason; a success
      carries a remaining span, an ETA, no reason, and either the +∞ tag or
      a rate above the positivity tolerance with an ETA inside the
      `DateTime` range. */
  predicate WellFormed(r: EstimationResult)
  {
    && (r.success <==> r.errorMessage.None?)
    && (!r.success ==> r.remaining.None? && r.eta.None? && r.rate == PerSecond(0.0))
    && (r.success ==> r.remaining.Some? && r.eta.Some?)
    && (r.success && r.rate.PerSecond? ==> r.rate.value > RateTolerance && !EtaOutOfRange(r.eta.value))
  }

  /** Every estimate that returns, returns a well-formed answer. */
  predicate WellFormedEstimation(e: Estimation)
  {
    e.Returned? ==> WellFormed(e.result)
  }

  /** `TimeSpan.FromSeconds`: the ticks of a non-negative number of
      seconds, or `None` where it throws because the span exceeds
      `TimeSpan.MaxValue`. */
  function FromSeconds(seconds: real): (r: Option<DurationText.TimeSpan>)
    requires seconds >= 0.0
    ensures r.Some? <==> (seconds * TicksPerSecond).Floor <= DurationText.MaxTicks
    ensures r.Some? ==> r.value as real <= seconds * TicksPerSecond < r.value as real + 1.0
  {
    var ticks := (seconds * TicksPerSecond).Floor;
    if ticks <= DurationText.MaxTicks then Some(ticks) else None
  }

  /** `DateTime.AddSeconds` leaves the `DateTime` range: it throws. */
  predicate EtaOutOfRange(eta: real)
  {
    !(0 <= eta.Floor <= MaxDateTicks)
  }

  function Abs(x: real): real
  {
    if x < 0.0 then -x else x
  }

  function Last<T>(s: seq<T>): T
    requires |s| > 0
  {
    s[|s| - 1]
  }

  /** `xs.Sum()` */
  function Sum(s: seq<real>): real
  {
    if |s| == 0 then 0.0 else Sum(s[..|s| - 1]) + s[|s| - 1]
  }

  /** The sum of `a[i] * b[i]` that the source's loop accumulates. */
  function Dot(a: seq<real>, b: seq<real>): real
    requires |a| == |b|
  {
    if |a| == 0 then 0.0 else Dot(a[..|a| - 1], b[..|b| - 1]) + a[|a| - 1] * b[|b| - 1]
  }

  /** The independent variable: `(p.Time - t0).TotalSeconds`. */
  function Elapsed(pts: seq<ProgressPoint>): (xs: seq<real>)
    ensures |xs| == |pts|
  {
    seq(|pts|, i requires 0 <= i < |pts| => (pts[i].time - pts[0].time) as real / TicksPerSecond)
  }

  /** The dependent variable: the cleaned percentages. */
  function Percentages(pts: seq<ProgressPoint>): (ys: seq<real>)
    requires InRange(pts)
    ensures |ys| == |pts|
    ensures forall i :: 0 <= i < |ys| ==> 0.0 <= ys[i] <= 100.0
  {
    seq(|pts|, i requires 0 <= i < |pts| => pts[i].percentage.value)
  }

  /** `n * sumXX - sumX * sumX` */
  function Det(n: real, sumX: real, sumXX: real): real
  {
    n * sumXX - sumX * sumX
  }

  /** The least-squares denominator of the elapsed times `xs`. */
  function Denominator(xs: seq<real>): real
  {
    Det(|xs| as real, Sum(xs), Dot(xs, xs))
  }

  /** The least-squares line from the five accumulated quantities
      `n`, `Σx`, `Σy`, `Σxy` and `Σx²`. */
  function LeastSquares(n: real, sumX: real, sumY: real, sumXY: real, sumXX: real): Line
    requires n > 0.0
    requires Det(n, sumX, sumXX) != 0.0
  {
    var slope := (n * sumXY - sumX * sumY) / Det(n, sumX, sumXX);
    Line(slope, (sumY - slope * sumX) / n)
  }

  /** The ordinary least-squares line through `(xs[i], ys[i])`. */
  function OlsLine(xs: seq<real>, ys: seq<real>): Line
    requires |xs| == |ys| > 0
    requires Denominator(xs) != 0.0
  {
    LeastSquares(|xs| as real, Sum(xs), Sum(ys), Dot(xs, ys), Dot(xs, xs))
  }

  /** The first/last two-point average rate, 0 when the time span is not positive. */
  function FallbackRate(xs: seq<real>, ys: seq<real>): real
    requires |xs| == |ys| > 0
  {
    var deltaSec := Last(xs) - xs[0];
    if deltaSec > 0.0 then (Last(ys) - ys[0]) / deltaSec else 0.0
  }

  /** The line the estimator extrapolates, given the least-squares line
      `ols`: `ols` itself when its slope is positive, otherwise the line
      through the first sample with the fallback rate when that is positive,
      otherwise none. */
  function ChooseLine(ols: Line, xs: seq<real>, ys: seq<real>): (r: Option<Line>)
    requires |xs| == |ys| > 0
    ensures r.Some? ==> r.value.slope > RateTolerance
    ensures ols.slope > RateTolerance ==> r == Some(ols)
    ensures !(ols.slope > RateTolerance) && r.Some? ==>
      r.value == Line(FallbackRate(xs, ys), ys[0] - FallbackRate(xs, ys) * xs[0])
    ensures r.None? <==> !(ols.slope > RateTolerance) && !(FallbackRate(xs, ys) > RateTolerance)
  {
    if ols.slope > RateTolerance then Some(ols)
    else
      var rate := FallbackRate(xs, ys);
      if rate > RateTolerance then Some(Line(rate, ys[0] - rate * xs[0])) else None
  }

  /** `tTo100`: the elapsed time at which the line reaches 100%. */
  function TimeTo100(line: Line): real
    requires line.slope > 0.0
  {
    (100.0 - line.intercept) / line.slope
  }

  /** The answer once a positive line has been chosen: the ETA
      `t0.AddSeconds(tTo100)` and, when 100% lies beyond the last sample,
      the span `TimeSpan.FromSeconds(tTo100 - lastX)`; either conversion
      throws when its value is out of range. */
  function Project(t0: int, line: Line, lastX: real): (r: Estimation)
    requires line.slope > RateTolerance
    ensures r.Returned? ==> WellFormed(r.result) && r.result.success
  {
    var tTo100 := TimeTo100(line);
    var eta := t0 as real + tTo100 * TicksPerSecond;
    if tTo100 <= lastX then
      if EtaOutOfRange(eta) then Thrown
      else Returned(EstimationResult(true, Some(0), Some(eta), PerSecond(line.slope), None))
    else
      match FromSeconds(tTo100 - lastX)
      case None => Thrown
      case Some(remaining) =>
        if EtaOutOfRange(eta) then Thrown
        else Returned(EstimationResult(true, Some(remaining), Some(eta), PerSecond(line.slope), None))
  }

  /** Steps 3 and 4 of the estimator: fit the line over elapsed seconds `xs`
      and percentages `ys` and extrapolate it to 100%. */
  function Fit(t0: int, xs: seq<real>, ys: seq<real>): (r: Estimation)
    requires |xs| == |ys| > 0
    ensures WellFormedEstimation(r)
  {
    if Abs(Denominator(xs)) < DenominatorTolerance then Returned(Failure(NoTimeVariationMessage))
    else match ChooseLine(OlsLine(xs, ys), xs, ys)
      case None => Returned(Failure(NonPositiveRateMessage))
      case Some(line) => Project(t0, line, Last(xs))
  }

  /** The decision ladder on cleaned samples. */
  function EstimateCleaned(pts: seq<ProgressPoint>): (r: Estimation)
    requires InRange(pts)
    ensures WellFormedEstimation(r)
  {
    if |pts| < 2 then Returned(Failure(TooFewSamplesMessage))
    else if Last(pts).percentage.value >= 100.0 then
      Returned(EstimationResult(true, Some(0), Some(Last(pts).time as real), PositiveInfinity, None))
    else Fit(pts[0].time, Elapsed(pts), Percentages(pts))
  }

  /** `EstimateRemaining`, as a function of its (possibly null) input. */
  function Estimate(samples: Option<seq<ProgressPoint>>): (r: Estimation)
    ensures WellFormedEstimation(r)
    ensures samples.None? ==> r == Returned(Failure(NullSamplesMessage))
  {
    match samples
    case None => Returned(Failure(NullSamplesMessage))
    case Some(s) => EstimateCleaned(Clean(s))
  }

  /** The estimator as the source runs it: one pass accumulating the cross
      and square sums, then the slope and intercept, reassigned in place when
      the fallback rate is taken. */
  method EstimateRemaining(samples: Option<seq<ProgressPoint>>) returns (r: Estimation)
    ensures r == Estimate(samples)
  {
    if samples.None? {
      return Returned(Failure(NullSamplesMessage));
    }
    var pts := Clean(samples.value);
    if |pts| < 2 {
      return Returned(Failure(TooFewSamplesMessage));
    }
    var last := pts[|pts| - 1];
    if last.percentage.value >= 100.0 {
      return Returned(EstimationResult(true, Some(0), Some(last.time as real), PositiveInfinity, None));
    }
    r := FitSamples(pts[0].time, Elapsed(pts), Percentages(pts));
  }

  /** The loop of `EstimateRemaining` that accumulates `Σxy` and `Σx²`. */
  method CrossSums(xs: seq<real>, ys: seq<real>) returns (sumXY: real, sumXX: real)
    requires |xs| == |ys|
    ensures sumXY == Dot(xs, ys) && sumXX == Dot(xs, xs)
  {
    sumXY, sumXX := 0.0, 0.0;
    var i := 0;
    while i < |xs|
      invariant 0 <= i <= |xs|
      invariant sumXY == Dot(xs[..i], ys[..i])
      invariant sumXX == Dot(xs[..i], xs[..i])
    {
      assert xs[..i + 1][..i] == xs[..i] && ys[..i + 1][..i] == ys[..i];
      sumXY := sumXY + xs[i] * ys[i];
      sumXX := sumXX + xs[i] * xs[i];
      i := i + 1;
    }
    assert xs[..i] == xs && ys[..i] == ys;
  }

  /** Steps 3 and 4 of `EstimateRemaining`, on elapsed seconds `xs` and
      percentages `ys`. */
  method FitSamples(t0: int, xs: seq<real>, ys: seq<real>) returns (r: Estimation)
    requires |xs| == |ys| > 0
    ensures r == Fit(t0, xs, ys)
  {
    var n := |xs| as real;
    var sumX := Sum(xs);
    var sumY := Sum(ys);
    var sumXY, sumXX := CrossSums(xs, ys);
    var denom := Det(n, sumX, sumXX);
    assert denom == Denominator(xs);
    if Abs(denom) < DenominatorTolerance {
      return Returned(Failure(NoTimeVariationMessage));
    }
    var fitted := LeastSquares(n, sumX, sumY, sumXY, sumXX);
    assert fitted == OlsLine(xs, ys);
    var slope, intercept := fitted.slope, fitted.intercept;
    if !(slope > RateTolerance) {
      var fallbackRate := FallbackRate(xs, ys);
      if !(fallbackRate > RateTolerance) {
        return Returned(Failure(NonPositiveRateMessage));
      }
      slope := fallbackRate;
      intercept := ys[0] - slope * xs[0];
      assert intercept == ys[0] - FallbackRate(xs, ys) * xs[0];
    }
    var line := Line(slope, intercept);
    assert ChooseLine(fitted, xs, ys) == Some(line);
    var tTo100 := TimeTo100(line);
    var lastX := xs[|xs| - 1];
    var eta := t0 as real + tTo100 * TicksPerSecond;
    if tTo100 <= lastX {
      if EtaOutOfRange(eta) {
        return Thrown;
      }
      return Returned(EstimationResult(true, Some(0), Some(eta), PerSecond(slope), None));
    }
    var remainingSec := tTo100 - lastX;
    var remaining := FromSeconds(remainingSec);
    if remaining.None? || EtaOutOfRange(eta) {
      return Thrown;
    }
    r := Returned(EstimationResult(true, remaining, Some(eta), PerSecond(slope), None));
  }

  // ---------------------------------------------------------------------
  // The decision ladder

  /** Fewer than two finite samples: failure, whatever their times. */
  lemma EstimateTooFewSamples(s: seq<ProgressPoint>)
    requires CountFinite(s) < 2
    ensures Estimate(Some(s)) == Returned(Failure(TooFewSamplesMessage))
    ensures !Estimate(Some(s)).result.success && Estimate(Some(s)).result.remaining.None?
    ensures Estimate(Some(s)).result.eta.None? && Estimate(Some(s)).result.rate == PerSecond(0.0)
  {
  }

  /** The last cleaned sample at 100%: success with nothing remaining and the
      ETA at that sample, whatever the other samples say. */
  lemma EstimateAtHundred(s: seq<ProgressPoint>)
    requires |Clean(s)| >= 2 && Last(Clean(s)).percentage.value >= 100.0
    ensures Estimate(Some(s)) ==
      Returned(EstimationResult(true, Some(0), Some(Last(Clean(s)).time as real), PositiveInfinity, None))
  {
  }

  /** All cleaned samples share one timestamp: the denominator vanishes and
      the answer is the "insufficient time variation" failure. */
  lemma EstimateNoTimeVariation(s: seq<ProgressPoint>)
    requires |Clean(s)| >= 2 && Last(Clean(s)).percentage.value < 100.0
    requires forall i :: 0 <= i < |Clean(s)| ==> Clean(s)[i].time == Clean(s)[0].time
    ensures Estimate(Some(s)) == Returned(Failure(NoTimeVariationMessage))
  {
    DenominatorOfConstant(Elapsed(Clean(s)));
  }

  /** Past the denominator check, a least-squares slope and a two-point rate
      both at or below the tolerance give the "non-positive rate" failure. */
  lemma FitNonPositiveRate(t0: int, xs: seq<real>, ys: seq<real>)
    requires |xs| == |ys| > 0
    requires Abs(Denominator(xs)) >= DenominatorTolerance
    requires OlsLine(xs, ys).slope <= RateTolerance
    requires FallbackRate(xs, ys) <= RateTolerance
    ensures Fit(t0, xs, ys) == Returned(Failure(NonPositiveRateMessage))
  {
  }

  /** Every answer of the fitting step that is a success: the rate is above
      the tolerance, the ETA is `t0` plus the time to 100% and inside the
      `DateTime` range, and the remaining span is 0 if that time is not after
      the last sample and otherwise the ticks of the positive difference. */
  lemma FitSuccess(t0: int, xs: seq<real>, ys: seq<real>)
    requires |xs| == |ys| > 0
    requires Fit(t0, xs, ys).Returned? && Fit(t0, xs, ys).result.success
    ensures Abs(Denominator(xs)) >= DenominatorTolerance
    ensures ChooseLine(OlsLine(xs, ys), xs, ys).Some?
    ensures var line := ChooseLine(OlsLine(xs, ys), xs, ys).value;
      var tTo100 := TimeTo100(line);
      var r := Fit(t0, xs, ys).result;
      && r.rate == PerSecond(line.slope) && line.slope > RateTolerance
      && r.eta == Some(t0 as real + tTo100 * TicksPerSecond)
      && !EtaOutOfRange(t0 as real + tTo100 * TicksPerSecond)
      && (tTo100 <= Last(xs) ==> r.remaining == Some(0))
      && (tTo100 > Last(xs) ==> r.remaining == FromSeconds(tTo100 - Last(xs)) && r.remaining.Some?)
  {
  }

  /** The fitting step throws exactly when a line was chosen and either the
      ETA is outside the `DateTime` range or, with 100% beyond the last
      sample, the remaining span exceeds `TimeSpan.MaxValue`; the failures
      of the ladder never throw. */
  lemma FitThrows(t0: int, xs: seq<real>, ys: seq<real>)
    requires |xs| == |ys| > 0
    ensures Fit(t0, xs, ys).Thrown? <==>
      && Abs(Denominator(xs)) >= DenominatorTolerance
      && ChooseLine(OlsLine(xs, ys), xs, ys).Some?
      && var tTo100 := TimeTo100(ChooseLine(OlsLine(xs, ys), xs, ys).value);
         || EtaOutOfRange(t0 as real + tTo100 * TicksPerSecond)
         || (tTo100 > Last(xs) && FromSeconds(tTo100 - Last(xs)).None?)
  {
  }

  // ---------------------------------------------------------------------
  // The least-squares line

  lemma DivThenMul(x: real, d: real)
    requires d != 0.0
    ensures (x / d) * d == x
  {
  }

  /** The line `LeastSquares` returns satisfies both normal equations of
      least squares, `n·a + b·Σx = Σy` and `a·Σx + b·Σx² = Σxy`: it is the
      ordinary least-squares fit of the samples the sums were taken over. */
  lemma LeastSquaresNormalEquations(n: real, sx: real, sy: real, sxy: real, sxx: real)
    requires n > 0.0 && Det(n, sx, sxx) != 0.0
    ensures var line := LeastSquares(n, sx, sy, sxy, sxx);
      && n * line.intercept + line.slope * sx == sy
      && line.intercept * sx + line.slope * sxx == sxy
  {
    var d := Det(n, sx, sxx);
    var b := (n * sxy - sx * sy) / d;
    var a := (sy - b * sx) / n;
    DivThenMul(sy - b * sx, n);
    DivThenMul(n * sxy - sx * sy, d);
    assert n * a == sy - b * sx;
    assert b * d == n * sxy - sx * sy;
    calc {
      n * (a * sx + b * sxx);
      (n * a) * sx + b * (n * sxx);
      (sy - b * sx) * sx + b * (n * sxx);
      sy * sx + b * (n * sxx - sx * sx);
      sy * sx + b * d;
      n * sxy;
    }
    assert a * sx + b * sxx == sxy by {
      assert n * (a * sx + b * sxx) == n * sxy;
    }
  }

  lemma {:induction false} SumsOfConstant(xs: seq<real>, c: real)
    requires forall i :: 0 <= i < |xs| ==> xs[i] == c
    ensures Sum(xs) == |xs| as real * c && Dot(xs, xs) == |xs| as real * (c * c)
  {
    if |xs| > 0 {
      var init := xs[..|xs| - 1];
      assert forall i :: 0 <= i < |init| ==> init[i] == xs[i];
      SumsOfConstant(init, c);
    }
  }

  lemma ConstantDenominator(n: real, c: real, sx: real, sxx: real)
    requires sx == n * c && sxx == n * (c * c)
    ensures Det(n, sx, sxx) == 0.0
  {
  }

  /** The denominator `n·Σx² − (Σx)²` vanishes when every time is the same,
      so a non-zero one means two different times. */
  lemma DenominatorOfConstant(xs: seq<real>)
    requires |xs| > 0
    requires forall i :: 0 <= i < |xs| ==> xs[i] == xs[0]
    ensures Denominator(xs) == 0.0
  {
    SumsOfConstant(xs, xs[0]);
    ConstantDenominator(|xs| as real, xs[0], Sum(xs), Dot(xs, xs));
  }

  /** On time-sorted samples, a non-degenerate denominator means the last
      sample is strictly later than the first, so the two-point rate divides
      by a positive span (its `: 0` arm is never taken). */
  lemma FallbackSpanPositive(pts: seq<ProgressPoint>)
    requires |pts| > 0 && SortedByTime(pts)
    requires Denominator(Elapsed(pts)) != 0.0
    ensures Last(Elapsed(pts)) > Elapsed(pts)[0] == 0.0
  {
    var xs := Elapsed(pts);
    if Last(xs) <= xs[0] {
      forall i | 0 <= i < |xs| ensures xs[i] == xs[0] {
        assert pts[0].time <= pts[i].time <= pts[|pts| - 1].time;
      }
      DenominatorOfConstant(xs);
    }
  }

  lemma {:induction false} SumAtMost(ys: seq<real>, bound: real)
    requires forall i :: 0 <= i < |ys| ==> ys[i] <= bound
    ensures Sum(ys) <= |ys| as real * bound
  {
    if |ys| > 0 {
      var init := ys[..|ys| - 1];
      assert forall i :: 0 <= i < |init| ==> init[i] == ys[i];
      SumAtMost(init, bound);
    }
  }

  lemma {:induction false} SumAtLeastZero(xs: seq<real>)
    requires forall i :: 0 <= i < |xs| ==> xs[i] >= 0.0
    ensures Sum(xs) >= 0.0
  {
    if |xs| > 0 {
      var init := xs[..|xs| - 1];
      assert forall i :: 0 <= i < |init| ==> init[i] == xs[i];
      SumAtLeastZero(init);
    }
  }

  lemma InterceptAtMost(n: real, sx: real, sy: real, sxy: real, sxx: real, bound: real)
    requires n > 0.0 && Det(n, sx, sxx) != 0.0
    requires sx >= 0.0 && sy <= n * bound
    requires LeastSquares(n, sx, sy, sxy, sxx).slope > 0.0
    ensures LeastSquares(n, sx, sy, sxy, sxx).intercept <= bound
  {
    var slope := LeastSquares(n, sx, sy, sxy, sxx).slope;
    assert slope * sx >= 0.0;
    assert sy - slope * sx <= n * bound;
  }

  /** The line the estimator extrapolates never starts above 100% at the
      first sample, so the time to 100% is never negative. */
  lemma TimeTo100NonNegative(xs: seq<real>, ys: seq<real>)
    requires |xs| == |ys| > 0 && xs[0] == 0.0
    requires forall i :: 0 <= i < |xs| ==> xs[i] >= 0.0
    requires forall i :: 0 <= i < |ys| ==> ys[i] <= 100.0
    requires Denominator(xs) != 0.0
    requires ChooseLine(OlsLine(xs, ys), xs, ys).Some?
    ensures TimeTo100(ChooseLine(OlsLine(xs, ys), xs, ys).value) >= 0.0
  {
    var ols := OlsLine(xs, ys);
    var line := ChooseLine(ols, xs, ys).value;
    if ols.slope > RateTolerance {
      OlsInterceptAtMost(xs, ys);
      TimeTo100OfLowIntercept(ols);
    } else {
      var rate := FallbackRate(xs, ys);
      assert line == Line(rate, ys[0] - rate * xs[0]);
      assert line.intercept == ys[0] <= 100.0;
      TimeTo100OfLowIntercept(line);
    }
  }

  /** With times from 0 on and percentages at most 100, a rising
      least-squares line starts at or below 100%. */
  lemma OlsInterceptAtMost(xs: seq<real>, ys: seq<real>)
    requires |xs| == |ys| > 0
    requires forall i :: 0 <= i < |xs| ==> xs[i] >= 0.0
    requires forall i :: 0 <= i < |ys| ==> ys[i] <= 100.0
    requires Denominator(xs) != 0.0
    requires OlsLine(xs, ys).slope > 0.0
    ensures OlsLine(xs, ys).intercept <= 100.0
  {
    SumAtMost(ys, 100.0);
    SumAtLeastZero(xs);
    InterceptAtMost(|xs| as real, Sum(xs), Sum(ys), Dot(xs, ys), Dot(xs, xs), 100.0);
  }

  lemma TimeTo100OfLowIntercept(line: Line)
    requires line.slope > 0.0 && line.intercept <= 100.0
    ensures TimeTo100(line) >= 0.0
  {
  }

  /** A successful estimate never puts the ETA before the first cleaned sample. */
  lemma EstimateEtaNotBeforeFirstSample(s: seq<ProgressPoint>)
    requires Estimate(Some(s)).Returned? && Estimate(Some(s)).result.success
    ensures |Clean(s)| >= 2
    ensures Estimate(Some(s)).result.eta.value >= Clean(s)[0].time as real
  {
    var pts := Clean(s);
    if Last(pts).percentage.value < 100.0 {
      var xs, ys := Elapsed(pts), Percentages(pts);
      FitSuccess(pts[0].time, xs, ys);
      TimeTo100NonNegative(xs, ys);
    }
  }

  // ---------------------------------------------------------------------
  // Worked scenarios

  lemma TwoInRangeSorted(a: ProgressPoint, b: ProgressPoint)
    requires a.percentage.Finite? && 0.0 <= a.percentage.value <= 100.0
    requires b.percentage.Finite? && 0.0 <= b.percentage.value <= 100.0
    requires a.time <= b.time
    ensures InRange([a, b]) && SortedByTime([a, b])
  {
    var s := [a, b];
    forall i | 0 <= i < 2 ensures s[i].percentage.Finite? && 0.0 <= s[i].percentage.value <= 100.0 {
      if i == 1 { assert s[i] == b; }
    }
  }

  /** Two clean samples, already in time order, survive cleaning unchanged. */
  lemma CleanTwoInOrder(a: ProgressPoint, b: ProgressPoint)
    requires a.percentage.Finite? && 0.0 <= a.percentage.value <= 100.0
    requires b.percentage.Finite? && 0.0 <= b.percentage.value <= 100.0
    requires a.time <= b.time
    ensures Clean([a, b]) == [a, b]
  {
    TwoInRangeSorted(a, b);
    FilterClampKeepsInRange([a, b]);
    SortByTimeOfSorted([a, b]);
  }

  lemma TwoSums(x1: real, y0: real, y1: real)
    ensures Sum([0.0, x1]) == x1
    ensures Dot([0.0, x1], [y0, y1]) == x1 * y1
  {
    var xs, ys := [0.0, x1], [y0, y1];
    assert xs[..1] == [0.0] && ys[..1] == [y0];
    assert [0.0][..0] == [] && [y0][..0] == [];
    assert Sum([0.0]) == 0.0;
    assert Dot([0.0], [y0]) == 0.0;
  }

  /** Two clean samples in time order, the second below 100%: the estimate is
      the fitting step on their elapsed seconds and percentages. */
  lemma EstimateTwo(a: ProgressPoint, b: ProgressPoint)
    requires a.percentage.Finite? && 0.0 <= a.percentage.value <= 100.0
    requires b.percentage.Finite? && 0.0 <= b.percentage.value < 100.0
    requires a.time <= b.time
    ensures Estimate(Some([a, b])) ==
      Fit(a.time, [0.0, (b.time - a.time) as real / TicksPerSecond], [a.percentage.value, b.percentage.value])
  {
    CleanTwoInOrder(a, b);
    TwoInRangeSorted(a, b);
    ElapsedTwo(a, b);
    assert Estimate(Some([a, b])) == EstimateCleaned([a, b]);
  }

  lemma ElapsedTwo(a: ProgressPoint, b: ProgressPoint)
    requires a.percentage.Finite? && b.percentage.Finite? && InRange([a, b])
    ensures Elapsed([a, b]) == [0.0, (b.time - a.time) as real / TicksPerSecond]
    ensures Percentages([a, b]) == [a.percentage.value, b.percentage.value]
  {
    var xs := Elapsed([a, b]);
    assert xs[0] == 0.0 && xs[1] == (b.time - a.time) as real / TicksPerSecond;
    var ys := Percentages([a, b]);
    assert ys[0] == a.percentage.value && ys[1] == b.percentage.value;
  }

  /** 0% then 50% ten seconds later: 5% per second, 10 seconds remaining,
      ETA twenty seconds after the first sample (which must itself leave
      room for that ETA in the `DateTime` range). */
  lemma ScenarioSteadyProgress(t0: int)
    requires 0 <= t0 <= MaxDateTicks - 200000000
    ensures Estimate(Some([ProgressPoint(Finite(0.0), t0), ProgressPoint(Finite(50.0), t0 + 100000000)]))
         == Returned(EstimationResult(true, Some(100000000), Some(t0 as real + 200000000.0), PerSecond(5.0), None))
  {
    EstimateTwo(ProgressPoint(Finite(0.0), t0), ProgressPoint(Finite(50.0), t0 + 100000000));
    TenSeconds(t0);
    SteadyLine();
    FitRising(t0, [0.0, 10.0], [0.0, 50.0]);
    ProjectSteady(t0);
  }

  lemma TenSeconds(t0: int)
    ensures (t0 + 100000000 - t0) as real / TicksPerSecond == 10.0
  {
  }

  /** Past the denominator check, a rising least-squares line is the one
      extrapolated. */
  lemma FitRising(t0: int, xs: seq<real>, ys: seq<real>)
    requires |xs| == |ys| > 0
    requires Abs(Denominator(xs)) >= DenominatorTolerance
    requires OlsLine(xs, ys).slope > RateTolerance
    ensures Fit(t0, xs, ys) == Project(t0, OlsLine(xs, ys), Last(xs))
  {
  }

  lemma SteadyLine()
    ensures Denominator([0.0, 10.0]) == 100.0
    ensures OlsLine([0.0, 10.0], [0.0, 50.0]) == Line(5.0, 0.0)
  {
    TwoSums(10.0, 0.0, 50.0);
    TwoSums(10.0, 0.0, 10.0);
  }

  lemma ProjectSteady(t0: int)
    requires 0 <= t0 <= MaxDateTicks - 200000000
    ensures Project(t0, Line(5.0, 0.0), 10.0)
         == Returned(EstimationResult(true, Some(100000000), Some(t0 as real + 200000000.0), PerSecond(5.0), None))
  {
    assert TimeTo100(Line(5.0, 0.0)) == 20.0;
    assert FromSeconds(10.0) == Some(100000000);
  }

  /** Two samples one tick apart, although strictly increasing in both time
      and percentage, fall under the denominator tolerance and fail. */
  lemma ScenarioOneTickApart(t0: int)
    ensures Estimate(Some([ProgressPoint(Finite(0.0), t0), ProgressPoint(Finite(50.0), t0 + 1)]))
         == Returned(Failure(NoTimeVariationMessage))
  {
    EstimateTwo(ProgressPoint(Finite(0.0), t0), ProgressPoint(Finite(50.0), t0 + 1));
    assert (t0 + 1 - t0) as real / TicksPerSecond == 0.0000001;
    TwoSums(0.0000001, 0.0, 0.0000001);
    assert Denominator([0.0, 0.0000001]) == 0.00000000000001;
  }

  /** 30% then 10% five seconds later: both the fitted slope and the
      two-point rate are negative, so the estimate fails. */
  lemma ScenarioRegressing(t0: int)
    ensures Estimate(Some([ProgressPoint(Finite(30.0), t0), ProgressPoint(Finite(10.0), t0 + 50000000)]))
         == Returned(Failure(NonPositiveRateMessage))
  {
    EstimateTwo(ProgressPoint(Finite(30.0), t0), ProgressPoint(Finite(10.0), t0 + 50000000));
    assert (t0 + 50000000 - t0) as real / TicksPerSecond == 5.0;
    RegressingLine();
    FitNonPositiveRate(t0, [0.0, 5.0], [30.0, 10.0]);
  }

  lemma RegressingLine()
    ensures Denominator([0.0, 5.0]) == 25.0
    ensures OlsLine([0.0, 5.0], [30.0, 10.0]).slope == -4.0
    ensures FallbackRate([0.0, 5.0], [30.0, 10.0]) == -4.0
  {
    TwoSums(5.0, 30.0, 10.0);
    TwoSums(5.0, 0.0, 5.0);
  }

  /** 0% then 0.000000001% ten seconds later: the rising line reaches 100%
      after 10^12 seconds, a span beyond `TimeSpan.MaxValue`, so
      `TimeSpan.FromSeconds` throws instead of an answer being returned. */
  lemma ScenarioRemainingOverflows(t0: int)
    ensures Estimate(Some([ProgressPoint(Finite(0.0), t0), ProgressPoint(Finite(0.000000001), t0 + 100000000)]))
         == Thrown
  {
    EstimateTwo(ProgressPoint(Finite(0.0), t0), ProgressPoint(Finite(0.000000001), t0 + 100000000));
    TenSeconds(t0);
    CrawlingLine();
    FitRising(t0, [0.0, 10.0], [0.0, 0.000000001]);
    ProjectCrawling(t0);
  }

  lemma CrawlingLine()
    ensures Denominator([0.0, 10.0]) == 100.0
    ensures OlsLine([0.0, 10.0], [0.0, 0.000000001]) == Line(0.0000000001, 0.0)
  {
    TwoSums(10.0, 0.0, 0.000000001);
    TwoSums(10.0, 0.0, 10.0);
  }

  lemma ProjectCrawling(t0: int)
    ensures Project(t0, Line(0.0000000001, 0.0), 10.0) == Thrown
  {
    assert TimeTo100(Line(0.0000000001, 0.0)) == 1000000000000.0;
    assert FromSeconds(1000000000000.0 - 10.0).None?;
  }
}
