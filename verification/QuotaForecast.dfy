/**
 The quota projection of gateway-admin/src/model/quota_forecast.rs, over real
 numbers instead of floats. Instants are nanoseconds.
 */
module QuotaForecast {
  import opened Common
  import opened QuotaSampling

  const MIN_USED_PERCENT: real := 5.0
  const LOW_SAMPLE_PERCENT: real := 10.0
  const SECOND: int := 1_000_000_000
  /** `Duration::try_seconds` refuses more. */
  const MAX_DURATION_SECONDS: int := 9_223_372_036_854_775
  /** `u64::MAX as f64`. */
  const TOKEN_LIMIT: real := 18_446_744_073_709_551_616.0

  datatype Period = Weekly | Monthly

  datatype Window = Window(title: string, windowSeconds: Option<nat>, usedPercent: Option<real>, resetAt: Option<int>)

  datatype Reason =
    | NoWindow
    | WindowExpired
    | NoSnapshot
    | Discontinuous
    | IncompleteStart
    | UnknownPercent
    | NoUsage
    | TooLittleProgress
    | NothingToEstimate

  datatype Source = Source(
    title: string, usedPercent: Option<real>, observedAt: Option<int>, resetAt: int, tokens: Option<nat>,
    usd: Option<real>)

  datatype Forecast = Forecast(
    period: Period,
    targetSeconds: nat,
    extrapolated: bool,
    source: Option<Source>,
    unavailable: Option<Reason>,
    lowSample: bool,
    incompleteCost: bool,
    incompleteTokens: bool,
    estimatedTokens: Option<nat>,
    estimatedUsd: Option<real>)

  /** The forecast before a window is projected onto it. */
  function Blank(period: Period): Forecast {
    Forecast(period, (if period == Weekly then 7 else 30) * 86_400, false, None, Some(NoWindow),
             false, false, false, None, None)
  }

  function Estimate(value: real, factor: real): Option<real> {
    if value * factor >= 0.0 then Some(value * factor) else None
  }

  /** `f64::round` of a non-negative number. */
  function Round(x: real): nat
    requires x >= 0.0
  {
    (x + 0.5).Floor
  }

  function EstimateTokens(value: real, factor: real): Option<nat> {
    match Estimate(value, factor)
    case None => None
    case Some(v) => if Round(v) as real < TOKEN_LIMIT then Some(Round(v)) else None
  }

  function ValidPercent(p: Option<real>): Option<real> {
    if p.Some? && 0.0 <= p.value <= 100.0 then p else None
  }

  function WindowStart(seconds: nat, resetAt: int): Option<int> {
    if seconds <= MAX_DURATION_SECONDS then Some(resetAt - seconds * SECOND) else None
  }

  function RecordedUsd(usage: Usage): Option<real> {
    if usage.knownCostCount > 0 && usage.usd >= 0.0 then Some(usage.usd) else None
  }

  predicate IncompleteCost(usage: Usage) {
    usage.unavailableCostCount > 0 || usage.knownCostCount == 0 || usage.knownCostCount != usage.requestCount
  }

  /** The filter on the sample that an estimate may use. */
  predicate Usable(sample: Sample, start: int, observedAt: int, percent: real) {
    && sample.endAt == observedAt
    && start <= sample.startAt <= sample.endAt
    && MIN_USED_PERCENT <= sample.sampledPercent <= percent
  }

  /** Recorded usage plus the recent rate applied to the unused rest. */
  function TokenEstimate(sample: Sample, percent: real, factor: real): Option<nat>
    requires sample.sampledPercent > 0.0
  {
    if sample.usage.tokens == 0 then None
    else match Estimate(sample.usage.tokens as real, (100.0 - percent) / sample.sampledPercent)
      case None => None
      case Some(rest) => EstimateTokens(sample.cycleUsage.tokens as real + rest, factor)
  }

  function UsdEstimate(sample: Sample, percent: real, factor: real): Option<real>
    requires sample.sampledPercent > 0.0
  {
    match (RecordedUsd(sample.cycleUsage), RecordedUsd(sample.usage))
    case (Some(used), Some(recent)) =>
      (match Estimate(recent, (100.0 - percent) / sample.sampledPercent)
       case None => None
       case Some(rest) => Estimate(used + rest, factor))
    case _ => None
  }

  /** The checks of `project`, in order, up to the estimate itself. */
  function Obstacle(start: Option<int>, resetAt: int, observedAt: Option<int>, addedAt: int, now: int,
                    percent: Option<real>, sample: Option<Sample>): Option<Reason>
  {
    if start.None? || !(start.value <= now < resetAt) then Some(WindowExpired)
    else if observedAt.None? || !(start.value <= observedAt.value <= now) then Some(NoSnapshot)
    else if sample.Some? && sample.value.discontinuous then Some(Discontinuous)
    else if addedAt > start.value && (sample.None? || sample.value.method_ == Cumulative) then Some(IncompleteStart)
    else if percent.None? then Some(UnknownPercent)
    else if sample.None? || sample.value.cycleUsage.requestCount == 0 then Some(NoUsage)
    else if !Usable(sample.value, start.value, observedAt.value, percent.value) then Some(TooLittleProgress)
    else None
  }

  /** The facts `project` writes before any check. */
  function Described(f: Forecast, window: Window, sourcePeriod: Period, observedAt: Option<int>,
                     sample: Option<Sample>): Forecast
    requires window.windowSeconds.Some? && window.resetAt.Some?
  {
    f.(extrapolated := sourcePeriod != f.period,
       targetSeconds := if sourcePeriod == f.period then window.windowSeconds.value else f.targetSeconds,
       source := Some(Source(window.title, ValidPercent(window.usedPercent), observedAt, window.resetAt.value,
                             if sample.Some? then Some(sample.value.cycleUsage.tokens) else None,
                             if sample.Some? then RecordedUsd(sample.value.cycleUsage) else None)),
       incompleteCost := sample.None? || IncompleteCost(sample.value.cycleUsage),
       incompleteTokens := sample.Some? && sample.value.cycleUsage.missingTokenCount > 0)
  }

  function Factor(target: nat, seconds: nat): real
    requires seconds > 0
  {
    target as real / seconds as real
  }

  /** The estimate itself. */
  function Estimated(f: Forecast, seconds: nat, percent: real, sample: Sample): Forecast
    requires seconds > 0 && sample.sampledPercent > 0.0
  {
    var tokens := TokenEstimate(sample, percent, Factor(f.targetSeconds, seconds));
    var usd := UsdEstimate(sample, percent, Factor(f.targetSeconds, seconds));
    f.(lowSample :=
         sample.sampledPercent < LOW_SAMPLE_PERCENT || (sample.method_ == Incremental && sample.blockCount < 2),
       estimatedTokens := tokens,
       estimatedUsd := usd,
       unavailable := if tokens.None? && usd.None? then Some(NothingToEstimate) else None)
  }

  /** `project` as a function of the forecast it fills. */
  function Projected(f: Forecast, window: Window, sourcePeriod: Period, observedAt: Option<int>, addedAt: int, now: int,
                     sample: Option<Sample>): Forecast
  {
    if window.windowSeconds.None? || window.resetAt.None? then f
    else
      var seconds := window.windowSeconds.value;
      var percent := ValidPercent(window.usedPercent);
      var g := Described(f, window, sourcePeriod, observedAt, sample);
      var obstacle := Obstacle(WindowStart(seconds, window.resetAt.value), window.resetAt.value, observedAt, addedAt,
                               now, percent, sample);
      if obstacle.Some? then g.(unavailable := obstacle)
      else
        assert seconds > 0;
        Estimated(g, seconds, percent.value, sample.value)
  }

  class AccountQuotaForecast {
    var forecast: Forecast

    constructor (period: Period)
      ensures forecast == Blank(period)
    {
      forecast := Blank(period);
    }

    method Describe(window: Window, sourcePeriod: Period, observedAt: Option<int>, sample: Option<Sample>)
      requires window.windowSeconds.Some? && window.resetAt.Some?
      modifies this
      ensures forecast == Described(old(forecast), window, sourcePeriod, observedAt, sample)
    {
      forecast := forecast.(extrapolated := sourcePeriod != forecast.period);
      if !forecast.extrapolated {
        forecast := forecast.(targetSeconds := window.windowSeconds.value);
      }
      var usage := if sample.Some? then Some(sample.value.cycleUsage) else None;
      var usd := if usage.Some? then RecordedUsd(usage.value) else None;
      forecast := forecast.(source := Some(Source(window.title, ValidPercent(window.usedPercent), observedAt,
                              window.resetAt.value, if usage.Some? then Some(usage.value.tokens) else None, usd)));
      forecast := forecast.(incompleteCost := usage.None? || IncompleteCost(usage.value));
      forecast := forecast.(incompleteTokens := usage.Some? && usage.value.missingTokenCount > 0);
    }

    /** `AccountQuotaForecast::project`. */
    method Project(window: Window, sourcePeriod: Period, observedAt: Option<int>, addedAt: int, now: int,
                   sample: Option<Sample>)
      modifies this
      ensures forecast == Projected(old(forecast), window, sourcePeriod, observedAt, addedAt, now, sample)
    {
      if window.windowSeconds.None? || window.resetAt.None? {
        return;
      }
      var seconds := window.windowSeconds.value;
      Describe(window, sourcePeriod, observedAt, sample);
      var percent := ValidPercent(window.usedPercent);
      var start := WindowStart(seconds, window.resetAt.value);
      var obstacle := Obstacle(start, window.resetAt.value, observedAt, addedAt, now, percent, sample);
      if obstacle.Some? {
        forecast := forecast.(unavailable := obstacle);
        return;
      }
      var factor := Factor(forecast.targetSeconds, seconds);
      forecast := forecast.(lowSample := sample.value.sampledPercent < LOW_SAMPLE_PERCENT
                              || (sample.value.method_ == Incremental && sample.value.blockCount < 2));
      forecast := forecast.(estimatedTokens := TokenEstimate(sample.value, percent.value, factor));
      forecast := forecast.(estimatedUsd := UsdEstimate(sample.value, percent.value, factor));
      forecast := forecast.(
        unavailable :=
          if forecast.estimatedTokens.None? && forecast.estimatedUsd.None? then Some(NothingToEstimate) else None);
    }
  }

  // ----- The laws of a forecast

  lemma RateIsNonNegative(value: real, percent: real, sampled: real)
    requires value >= 0.0 && 0.0 <= percent <= 100.0 && sampled > 0.0
    ensures value * ((100.0 - percent) / sampled) >= 0.0
  {
    assert (100.0 - percent) / sampled >= 0.0;
  }

  lemma RoundKeepsFloor(n: nat, x: real)
    requires x >= n as real
    ensures Round(x) >= n
  {
  }

  lemma FactorOne(seconds: nat)
    requires seconds > 0
    ensures Factor(seconds, seconds) == 1.0
  {
  }

  lemma EstimatedOnOwnWindow(f: Forecast, seconds: nat, percent: real, sample: Sample)
    requires seconds > 0 && sample.sampledPercent > 0.0 && f.targetSeconds == seconds
    ensures Estimated(f, seconds, percent, sample).estimatedTokens == TokenEstimate(sample, percent, 1.0)
    ensures Estimated(f, seconds, percent, sample).estimatedUsd == UsdEstimate(sample, percent, 1.0)
  {
    FactorOne(seconds);
  }

  /** A forecast with an estimate passed every check, and on its own window scales by one. */
  lemma EstimateMeansChecked(period: Period, window: Window, observedAt: Option<int>, addedAt: int, now: int,
                             sample: Sample)
    requires var f := Projected(Blank(period), window, period, observedAt, addedAt, now, Some(sample));
             f.estimatedTokens.Some? || f.estimatedUsd.Some?
    ensures window.usedPercent.Some? && 0.0 <= window.usedPercent.value <= 100.0 && sample.sampledPercent >= 5.0
    ensures var f := Projected(Blank(period), window, period, observedAt, addedAt, now, Some(sample));
            && f.estimatedTokens == TokenEstimate(sample, window.usedPercent.value, 1.0)
            && f.estimatedUsd == UsdEstimate(sample, window.usedPercent.value, 1.0)
  {
    var seconds := window.windowSeconds.value;
    var g := Described(Blank(period), window, period, observedAt, Some(sample));
    EstimatedOnOwnWindow(g, seconds, window.usedPercent.value, sample);
  }

  /** A forecast of the window itself is never below what the cycle already recorded. */
  lemma NeverBelowRecordedUsage(period: Period, window: Window, observedAt: Option<int>, addedAt: int, now: int,
                                sample: Sample)
    ensures var f := Projected(Blank(period), window, period, observedAt, addedAt, now, Some(sample));
      && (f.estimatedTokens.Some? ==> f.estimatedTokens.value >= sample.cycleUsage.tokens)
      && (f.estimatedUsd.Some? ==> f.estimatedUsd.value >= sample.cycleUsage.usd)
  {
    var f := Projected(Blank(period), window, period, observedAt, addedAt, now, Some(sample));
    if f.estimatedTokens.Some? || f.estimatedUsd.Some? {
      EstimateMeansChecked(period, window, observedAt, addedAt, now, sample);
      EstimatesCoverRecorded(sample, window.usedPercent.value);
    }
  }

  lemma EstimatesCoverRecorded(sample: Sample, percent: real)
    requires 0.0 <= percent <= 100.0 && sample.sampledPercent > 0.0
    ensures var t := TokenEstimate(sample, percent, 1.0); t.Some? ==> t.value >= sample.cycleUsage.tokens
    ensures var u := UsdEstimate(sample, percent, 1.0); u.Some? ==> u.value >= sample.cycleUsage.usd
  {
    RateIsNonNegative(sample.usage.tokens as real, percent, sample.sampledPercent);
    RoundKeepsFloor(sample.cycleUsage.tokens,
      sample.cycleUsage.tokens as real + sample.usage.tokens as real * ((100.0 - percent) / sample.sampledPercent));
    if sample.usage.usd >= 0.0 {
      RateIsNonNegative(sample.usage.usd, percent, sample.sampledPercent);
    }
  }

  /** Tokens and cost are proportional to the used percent at every point. */
  ghost predicate Proportional(points: seq<Point>, tokenRate: real, usdRate: real) {
    forall i :: 0 <= i < |points| ==> AtRate(points[i], tokenRate, usdRate)
  }

  ghost predicate AtRate(p: Point, tokenRate: real, usdRate: real) {
    p.usage.tokens as real == tokenRate * p.usedPercent && p.usage.usd == usdRate * p.usedPercent
  }

  ghost predicate NoDrops(points: seq<Point>) {
    forall i :: 0 <= i < |points| ==> !Drop(points, i)
  }

  /** Under proportional use, the sampled usage is the rate times the sampled percent. */
  ghost predicate RateSample(sample: Sample, current: Point, tokenRate: real, usdRate: real) {
    && sample.cycleUsage == current.usage
    && sample.usage.tokens as real == tokenRate * sample.sampledPercent
    && (sample.usage.usd == usdRate * sample.sampledPercent || sample.sampledPercent < 5.0)
  }

  lemma RateDifference(total: Point, base: Point, usage: Usage, tokenRate: real, usdRate: real)
    requires Difference(total.usage, base.usage) == Some(usage)
    requires AtRate(total, tokenRate, usdRate) && AtRate(base, tokenRate, usdRate)
    requires total.usedPercent - base.usedPercent >= 5.0 && usdRate >= 0.0
    ensures usage.tokens as real == tokenRate * (total.usedPercent - base.usedPercent)
    ensures usage.usd == usdRate * (total.usedPercent - base.usedPercent)
  {
    RateOfDifference(usdRate, total.usedPercent, base.usedPercent);
    RateOfDifference(tokenRate, total.usedPercent, base.usedPercent);
    assert Plus(base.usage, usage).tokens == total.usage.tokens;
  }

  lemma RateOfDifference(rate: real, a: real, b: real)
    ensures rate * (a - b) == rate * a - rate * b
    ensures rate >= 0.0 && a >= b ==> rate * (a - b) >= 0.0
  {
  }

  lemma NoDropsNoReset(points: seq<Point>)
    requires points != [] && NoDrops(points)
    ensures ScanUpTo(points, |points|).reset == None
  {
    ScanSeesNoLaterDrop(points, |points|);
  }

  lemma RateOfConclusion(base: Sample, points: seq<Point>, scan: Scan, tokenRate: real, usdRate: real)
    requires points != [] && ScanIn(points, scan, |points|) && scan.reset.None? && usdRate >= 0.0
    requires base.method_ == Cumulative
    requires base.usage == points[|points| - 1].usage && base.sampledPercent == points[|points| - 1].usedPercent
    requires AtRate(points[|points| - 1], tokenRate, usdRate)
    requires |scan.anchors| >= 2 ==> AtRate(points[scan.anchors[BaselineIndex(scan.anchors)]], tokenRate, usdRate)
    ensures RateSample(Conclude(base, points, scan, false), points[|points| - 1], tokenRate, usdRate)
  {
    var sample := Conclude(base, points, scan, false);
    if sample.method_ == Incremental {
      var baseline := points[scan.anchors[BaselineIndex(scan.anchors)]];
      RateDifference(points[|points| - 1], baseline, sample.usage, tokenRate, usdRate);
    }
  }

  lemma ProportionalSample(key: string, startAt: int, current: Point, history: seq<Point>, pending: nat,
                           tokenRate: real, usdRate: real)
    requires Proportional(Points(startAt, current, history), tokenRate, usdRate) && usdRate >= 0.0
    requires NoDrops(Points(startAt, current, history))
    ensures RateSample(SampleOf(key, startAt, current, history, pending, false), current, tokenRate, usdRate)
  {
    var points := Points(startAt, current, history);
    NoDropsNoReset(points);
    RateOfConclusion(CumulativeSample(key, startAt, current, |points| - 1, pending, false), points,
                     ScanUpTo(points, |points|), tokenRate, usdRate);
  }

  /** The recorded share plus the rate on the rest is the usage at one hundred percent. */
  lemma RateFillsTheWindow(rate: real, percent: real, sampled: real)
    requires sampled > 0.0
    ensures rate * percent + (rate * sampled) * ((100.0 - percent) / sampled) == rate * 100.0
  {
    assert sampled * ((100.0 - percent) / sampled) == 100.0 - percent;
    assert (rate * sampled) * ((100.0 - percent) / sampled) == rate * (100.0 - percent);
  }

  /**
   When use is proportional to the used percent, nothing is discontinuous and the
   current point carries the window's percent, a forecast of the window itself is
   exactly the usage at one hundred percent, for cumulative and incremental samples.
   */
  lemma ProportionalForecastIsExact(
      key: string, startAt: int, current: Point, history: seq<Point>, pending: nat, tokenRate: real, usdRate: real,
      period: Period, window: Window, observedAt: Option<int>, addedAt: int, now: int)
    requires Proportional(Points(startAt, current, history), tokenRate, usdRate) && tokenRate >= 0.0 && usdRate >= 0.0
    requires NoDrops(Points(startAt, current, history))
    requires window.usedPercent == Some(current.usedPercent)
    ensures var sample := SampleOf(key, startAt, current, history, pending, false);
      var f := Projected(Blank(period), window, period, observedAt, addedAt, now, Some(sample));
      && (f.estimatedTokens.Some? ==> f.estimatedTokens.value == Round(tokenRate * 100.0))
      && (f.estimatedUsd.Some? ==> f.estimatedUsd.value == usdRate * 100.0)
  {
    var points := Points(startAt, current, history);
    var sample := SampleOf(key, startAt, current, history, pending, false);
    ProportionalSample(key, startAt, current, history, pending, tokenRate, usdRate);
    assert points[|points| - 1] == current;
    RateSampleForecast(sample, current, tokenRate, usdRate, period, window, observedAt, addedAt, now);
  }

  lemma RateSampleForecast(
      sample: Sample, current: Point, tokenRate: real, usdRate: real,
      period: Period, window: Window, observedAt: Option<int>, addedAt: int, now: int)
    requires RateSample(sample, current, tokenRate, usdRate) && tokenRate >= 0.0 && usdRate >= 0.0
    requires AtRate(current, tokenRate, usdRate)
    requires window.usedPercent == Some(current.usedPercent)
    ensures var f := Projected(Blank(period), window, period, observedAt, addedAt, now, Some(sample));
      && (f.estimatedTokens.Some? ==> f.estimatedTokens.value == Round(tokenRate * 100.0))
      && (f.estimatedUsd.Some? ==> f.estimatedUsd.value == usdRate * 100.0)
  {
    var f := Projected(Blank(period), window, period, observedAt, addedAt, now, Some(sample));
    if f.estimatedTokens.Some? || f.estimatedUsd.Some? {
      EstimateMeansChecked(period, window, observedAt, addedAt, now, sample);
      RateTokens(sample, current, tokenRate);
      RateUsd(sample, current, usdRate);
    }
  }

  lemma RateTokens(sample: Sample, current: Point, rate: real)
    requires sample.sampledPercent > 0.0 && rate >= 0.0 && sample.cycleUsage == current.usage
    requires sample.usage.tokens as real == rate * sample.sampledPercent
    requires current.usage.tokens as real == rate * current.usedPercent
    ensures var t := TokenEstimate(sample, current.usedPercent, 1.0); t.Some? ==> t.value == Round(rate * 100.0)
  {
    RateFillsTheWindow(rate, current.usedPercent, sample.sampledPercent);
  }

  lemma RateUsd(sample: Sample, current: Point, rate: real)
    requires sample.sampledPercent > 0.0 && rate >= 0.0 && sample.cycleUsage == current.usage
    requires sample.usage.usd == rate * sample.sampledPercent && current.usage.usd == rate * current.usedPercent
    ensures var u := UsdEstimate(sample, current.usedPercent, 1.0); u.Some? ==> u.value == rate * 100.0
  {
    RateFillsTheWindow(rate, current.usedPercent, sample.sampledPercent);
  }

  // ----- What is estimated, when, and why not

  /** `f64::round`: the nearest integer, halves up. */
  lemma RoundIsNearest(x: real)
    requires x >= 0.0
    ensures Round(x) as real - 0.5 <= x < Round(x) as real + 0.5
  {
  }

  /** The window covers `now`. */
  predicate Covers(window: Window, now: int)
    requires window.windowSeconds.Some? && window.resetAt.Some?
  {
    && window.windowSeconds.value <= MAX_DURATION_SECONDS
    && window.resetAt.value - window.windowSeconds.value * SECOND <= now < window.resetAt.value
  }

  function StartOf(window: Window): int
    requires window.windowSeconds.Some? && window.resetAt.Some?
  {
    window.resetAt.value - window.windowSeconds.value * SECOND
  }

  predicate ObservedInWindow(window: Window, observedAt: Option<int>, now: int)
    requires window.windowSeconds.Some? && window.resetAt.Some?
  {
    observedAt.Some? && StartOf(window) <= observedAt.value <= now
  }

  predicate KnownPercent(window: Window) {
    window.usedPercent.Some? && 0.0 <= window.usedPercent.value <= 100.0
  }

  /** Everything that must hold before an estimate is made. */
  predicate Ready(window: Window, observedAt: Option<int>, addedAt: int, now: int, sample: Option<Sample>) {
    && window.windowSeconds.Some? && window.resetAt.Some?
    && Covers(window, now) && ObservedInWindow(window, observedAt, now) && KnownPercent(window)
    && sample.Some? && !sample.value.discontinuous && sample.value.cycleUsage.requestCount > 0
    && (addedAt <= StartOf(window) || sample.value.method_ == Incremental)
    && sample.value.endAt == observedAt.value && StartOf(window) <= sample.value.startAt <= sample.value.endAt
    && 5.0 <= sample.value.sampledPercent <= window.usedPercent.value
  }

  /** Seconds of the forecast: the window's own, or seven or thirty days when another period is extrapolated. */
  function TargetOf(period: Period, sourcePeriod: Period, window: Window): nat
    requires window.windowSeconds.Some?
  {
    if sourcePeriod == period then window.windowSeconds.value
    else if period == Weekly then 604_800 else 2_592_000
  }

  /** The usage at one hundred percent of the window: what is recorded, and the rest at the sampled rate. */
  function WholeWindow(recorded: real, sampled: real, sample: Sample, percent: real): real
    requires sample.sampledPercent > 0.0
  {
    recorded + sampled * ((100.0 - percent) / sample.sampledPercent)
  }

  /** `x` is the usage of the whole window, scaled from `seconds` to the target. */
  ghost predicate Scaled(x: real, whole: real, target: nat, seconds: nat) {
    x * seconds as real == whole * target as real
  }

  /** The tokens of the whole window, scaled and rounded, if they fit. */
  ghost predicate TokensAre(tokens: Option<nat>, whole: real, target: nat, seconds: nat) {
    exists x: real :: x >= 0.0 && Scaled(x, whole, target, seconds)
      && tokens == if Round(x) as real < TOKEN_LIMIT then Some(Round(x)) else None
  }

  lemma FactorScales(x: real, target: nat, seconds: nat)
    requires seconds > 0
    ensures Scaled(x * Factor(target, seconds), x, target, seconds)
  {
    assert Factor(target, seconds) * seconds as real == target as real;
  }

  lemma ScalingIsNonNegative(x: real, target: nat, seconds: nat)
    requires x >= 0.0 && seconds > 0
    ensures x * Factor(target, seconds) >= 0.0
  {
    assert Factor(target, seconds) >= 0.0;
  }

  predicate HasCost(usage: Usage) { usage.knownCostCount > 0 && usage.usd >= 0.0 }

  function WholeUsd(sample: Sample, percent: real): real
    requires sample.sampledPercent > 0.0
  {
    WholeWindow(sample.cycleUsage.usd, sample.usage.usd, sample, percent)
  }

  function WholeTokens(sample: Sample, percent: real): real
    requires sample.sampledPercent > 0.0
  {
    WholeWindow(sample.cycleUsage.tokens as real, sample.usage.tokens as real, sample, percent)
  }

  lemma UsdEstimateIs(sample: Sample, percent: real, target: nat, seconds: nat)
    requires sample.sampledPercent > 0.0 && 0.0 <= percent <= 100.0 && seconds > 0
    ensures var u := UsdEstimate(sample, percent, Factor(target, seconds));
      && (u.Some? <==> HasCost(sample.cycleUsage) && HasCost(sample.usage))
      && (u.Some? ==> Scaled(u.value, WholeUsd(sample, percent), target, seconds))
  {
    if HasCost(sample.cycleUsage) && HasCost(sample.usage) {
      RateIsNonNegative(sample.usage.usd, percent, sample.sampledPercent);
      ScalingIsNonNegative(WholeUsd(sample, percent), target, seconds);
      FactorScales(WholeUsd(sample, percent), target, seconds);
    }
  }

  lemma TokenEstimateIs(sample: Sample, percent: real, target: nat, seconds: nat)
    requires sample.sampledPercent > 0.0 && 0.0 <= percent <= 100.0 && seconds > 0
    ensures var t := TokenEstimate(sample, percent, Factor(target, seconds));
      if sample.usage.tokens > 0 then TokensAre(t, WholeTokens(sample, percent), target, seconds) else t.None?
  {
    RateIsNonNegative(sample.usage.tokens as real, percent, sample.sampledPercent);
    ScalingIsNonNegative(WholeTokens(sample, percent), target, seconds);
    FactorScales(WholeTokens(sample, percent), target, seconds);
  }

  lemma ReadyIff(window: Window, observedAt: Option<int>, addedAt: int, now: int, sample: Option<Sample>)
    requires window.windowSeconds.Some? && window.resetAt.Some?
    ensures Ready(window, observedAt, addedAt, now, sample) <==>
      Obstacle(WindowStart(window.windowSeconds.value, window.resetAt.value), window.resetAt.value, observedAt, addedAt,
               now, ValidPercent(window.usedPercent), sample).None?
  {
  }

  /** Without everything ready there is no estimate, and with it the estimate is that of the sample. */
  lemma ProjectionIs(period: Period, sourcePeriod: Period, window: Window, observedAt: Option<int>, addedAt: int,
                     now: int, sample: Option<Sample>)
    ensures var f := Projected(Blank(period), window, sourcePeriod, observedAt, addedAt, now, sample);
      if Ready(window, observedAt, addedAt, now, sample) then
        && window.windowSeconds.value > 0 && sample.value.sampledPercent > 0.0
        && var factor := Factor(TargetOf(period, sourcePeriod, window), window.windowSeconds.value);
           && f.estimatedTokens == TokenEstimate(sample.value, window.usedPercent.value, factor)
           && f.estimatedUsd == UsdEstimate(sample.value, window.usedPercent.value, factor)
           && f.targetSeconds == TargetOf(period, sourcePeriod, window)
      else f.estimatedTokens.None? && f.estimatedUsd.None?
  {
    if window.windowSeconds.Some? && window.resetAt.Some? {
      ReadyIff(window, observedAt, addedAt, now, sample);
    }
  }

  /**
   A cost is estimated exactly when everything is ready and both usages have one, and it
   is the cost of the whole window scaled to the target, extrapolated or not.
   */
  lemma UsdForecastIs(period: Period, sourcePeriod: Period, window: Window, observedAt: Option<int>, addedAt: int,
                      now: int, sample: Option<Sample>)
    ensures var f := Projected(Blank(period), window, sourcePeriod, observedAt, addedAt, now, sample);
      && (f.estimatedUsd.Some? <==>
            && Ready(window, observedAt, addedAt, now, sample)
            && HasCost(sample.value.cycleUsage) && HasCost(sample.value.usage))
      && (f.estimatedUsd.Some? ==>
            Scaled(f.estimatedUsd.value, WholeUsd(sample.value, window.usedPercent.value),
                   TargetOf(period, sourcePeriod, window), window.windowSeconds.value))
  {
    ProjectionIs(period, sourcePeriod, window, observedAt, addedAt, now, sample);
    if Ready(window, observedAt, addedAt, now, sample) {
      UsdEstimateIs(sample.value, window.usedPercent.value, TargetOf(period, sourcePeriod, window),
                    window.windowSeconds.value);
    }
  }

  /**
   Tokens are estimated exactly when everything is ready, the sample has some, and the
   result fits; it is the tokens of the whole window scaled to the target and rounded.
   */
  lemma TokenForecastIs(period: Period, sourcePeriod: Period, window: Window, observedAt: Option<int>, addedAt: int,
                        now: int, sample: Option<Sample>)
    ensures var f := Projected(Blank(period), window, sourcePeriod, observedAt, addedAt, now, sample);
      if Ready(window, observedAt, addedAt, now, sample) && sample.value.usage.tokens > 0 then
        TokensAre(f.estimatedTokens, WholeTokens(sample.value, window.usedPercent.value),
                  TargetOf(period, sourcePeriod, window), window.windowSeconds.value)
      else f.estimatedTokens.None?
  {
    ProjectionIs(period, sourcePeriod, window, observedAt, addedAt, now, sample);
    if Ready(window, observedAt, addedAt, now, sample) {
      TokenEstimateIs(sample.value, window.usedPercent.value, TargetOf(period, sourcePeriod, window),
                      window.windowSeconds.value);
    }
  }

  lemma RateWhole(sample: Sample, current: Point, tokenRate: real, usdRate: real)
    requires RateSample(sample, current, tokenRate, usdRate) && AtRate(current, tokenRate, usdRate)
    requires sample.sampledPercent >= 5.0
    ensures WholeUsd(sample, current.usedPercent) == usdRate * 100.0
    ensures WholeTokens(sample, current.usedPercent) == tokenRate * 100.0
  {
    RateFillsTheWindow(usdRate, current.usedPercent, sample.sampledPercent);
    RateFillsTheWindow(tokenRate, current.usedPercent, sample.sampledPercent);
  }

  /** Under proportional use the forecast of any period is the usage at one hundred percent, scaled to it. */
  ghost predicate ScaledFromFull(f: Forecast, tokenRate: real, usdRate: real, target: nat, seconds: nat) {
    && (f.estimatedUsd.Some? ==> Scaled(f.estimatedUsd.value, usdRate * 100.0, target, seconds))
    && (f.estimatedTokens.Some? ==> TokensAre(f.estimatedTokens, tokenRate * 100.0, target, seconds))
  }

  lemma RateSampleExtrapolates(
      sample: Sample, current: Point, tokenRate: real, usdRate: real, period: Period, sourcePeriod: Period,
      window: Window, observedAt: Option<int>, addedAt: int, now: int)
    requires RateSample(sample, current, tokenRate, usdRate) && AtRate(current, tokenRate, usdRate)
    requires window.usedPercent == Some(current.usedPercent)
    requires Ready(window, observedAt, addedAt, now, Some(sample))
    ensures ScaledFromFull(Projected(Blank(period), window, sourcePeriod, observedAt, addedAt, now, Some(sample)),
                           tokenRate, usdRate, TargetOf(period, sourcePeriod, window), window.windowSeconds.value)
  {
    UsdForecastIs(period, sourcePeriod, window, observedAt, addedAt, now, Some(sample));
    TokenForecastIs(period, sourcePeriod, window, observedAt, addedAt, now, Some(sample));
    RateWhole(sample, current, tokenRate, usdRate);
  }

  /**
   Under proportional use without drops, a forecast for any period, extrapolated or not,
   is the usage at one hundred percent scaled from the window to the target.
   */
  lemma ProportionalExtrapolation(
      key: string, startAt: int, current: Point, history: seq<Point>, pending: nat, tokenRate: real, usdRate: real,
      period: Period, sourcePeriod: Period, window: Window, observedAt: Option<int>, addedAt: int, now: int)
    requires Proportional(Points(startAt, current, history), tokenRate, usdRate) && usdRate >= 0.0
    requires NoDrops(Points(startAt, current, history)) && window.usedPercent == Some(current.usedPercent)
    ensures var sample := SampleOf(key, startAt, current, history, pending, false);
      var f := Projected(Blank(period), window, sourcePeriod, observedAt, addedAt, now, Some(sample));
      if Ready(window, observedAt, addedAt, now, Some(sample)) then
        ScaledFromFull(f, tokenRate, usdRate, TargetOf(period, sourcePeriod, window), window.windowSeconds.value)
      else f.estimatedTokens.None? && f.estimatedUsd.None?
  {
    var sample := SampleOf(key, startAt, current, history, pending, false);
    ProportionalSample(key, startAt, current, history, pending, tokenRate, usdRate);
    CurrentAtRate(startAt, current, history, tokenRate, usdRate);
    ProjectionIs(period, sourcePeriod, window, observedAt, addedAt, now, Some(sample));
    if Ready(window, observedAt, addedAt, now, Some(sample)) {
      RateSampleExtrapolates(sample, current, tokenRate, usdRate, period, sourcePeriod, window, observedAt, addedAt,
                             now);
    }
  }

  lemma CurrentAtRate(startAt: int, current: Point, history: seq<Point>, tokenRate: real, usdRate: real)
    requires Proportional(Points(startAt, current, history), tokenRate, usdRate)
    ensures AtRate(current, tokenRate, usdRate)
  {
    var points := Points(startAt, current, history);
    assert points[|points| - 1] == current;
  }

  /** The reason given is that of the first check that fails; none is given exactly with an estimate. */
  lemma ReasonIff(period: Period, sourcePeriod: Period, window: Window, observedAt: Option<int>, addedAt: int, now: int,
                  sample: Option<Sample>)
    ensures var f := Projected(Blank(period), window, sourcePeriod, observedAt, addedAt, now, sample);
      && (f.unavailable.None? <==> f.estimatedTokens.Some? || f.estimatedUsd.Some?)
      && (f.unavailable == Some(NoWindow) <==> window.windowSeconds.None? || window.resetAt.None?)
      && (window.windowSeconds.Some? && window.resetAt.Some? ==>
            var inTime := Covers(window, now);
            var seen := inTime && ObservedInWindow(window, observedAt, now);
            var whole := seen && !(sample.Some? && sample.value.discontinuous);
            var fromStart := addedAt <= StartOf(window) || (sample.Some? && sample.value.method_ == Incremental);
            var complete := whole && fromStart;
            var known := complete && KnownPercent(window);
            var used := known && sample.Some? && sample.value.cycleUsage.requestCount > 0;
            && (f.unavailable == Some(WindowExpired) <==> !inTime)
            && (f.unavailable == Some(NoSnapshot) <==> inTime && !seen)
            && (f.unavailable == Some(Discontinuous) <==> seen && !whole)
            && (f.unavailable == Some(IncompleteStart) <==> whole && !complete)
            && (f.unavailable == Some(UnknownPercent) <==> complete && !known)
            && (f.unavailable == Some(NoUsage) <==> known && !used)
            && (f.unavailable == Some(TooLittleProgress) <==>
                  used && !Ready(window, observedAt, addedAt, now, sample)))
  {
  }

  /** What the flags of a forecast mean. */
  lemma FlagsIff(period: Period, sourcePeriod: Period, window: Window, observedAt: Option<int>, addedAt: int, now: int,
                 sample: Option<Sample>)
    requires window.windowSeconds.Some? && window.resetAt.Some?
    ensures var f := Projected(Blank(period), window, sourcePeriod, observedAt, addedAt, now, sample);
      && f.period == period && (f.extrapolated <==> sourcePeriod != period)
      && f.targetSeconds == TargetOf(period, sourcePeriod, window)
      && f.source.Some? && f.source.value.title == window.title && f.source.value.observedAt == observedAt
      && f.source.value.resetAt == window.resetAt.value
      && f.source.value.usedPercent == (if KnownPercent(window) then window.usedPercent else None)
      && f.source.value.tokens == (if sample.Some? then Some(sample.value.cycleUsage.tokens) else None)
      && f.source.value.usd == (if sample.Some? && HasCost(sample.value.cycleUsage)
                                then Some(sample.value.cycleUsage.usd) else None)
      && (f.incompleteTokens <==> sample.Some? && sample.value.cycleUsage.missingTokenCount > 0)
      && (!f.incompleteCost <==>
            && sample.Some?
            && var u := sample.value.cycleUsage;
               0 < u.knownCostCount == u.requestCount && u.unavailableCostCount == 0)
      && (f.lowSample <==>
            && Ready(window, observedAt, addedAt, now, sample)
            && (sample.value.sampledPercent < 10.0
                || (sample.value.method_ == Incremental && sample.value.blockCount < 2)))
  {
    ReadyIff(window, observedAt, addedAt, now, sample);
  }
}
