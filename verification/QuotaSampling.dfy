/**
 Forecast sampling of gateway-admin/src/model/quota_forecast_sampling.rs, over
 real numbers instead of floats.
 */
module QuotaSampling {
  import opened Common

  const MIN_BLOCK_PERCENT: real := 5.0
  const RECENT_BLOCKS: nat := 3
  const COST_TOLERANCE: real := 0.000_000_001

  datatype Usage = Usage(
    requestCount: nat,
    tokens: nat,
    inputTokens: nat,
    outputTokens: nat,
    cachedTokens: nat,
    missingTokenCount: nat,
    knownCostCount: nat,
    unavailableCostCount: nat,
    usd: real,
    excludedRequestCount: nat)

  predicate CountsAtMost(a: Usage, b: Usage) {
    && a.requestCount <= b.requestCount
    && a.tokens <= b.tokens
    && a.inputTokens <= b.inputTokens
    && a.outputTokens <= b.outputTokens
    && a.cachedTokens <= b.cachedTokens
    && a.missingTokenCount <= b.missingTokenCount
    && a.knownCostCount <= b.knownCostCount
    && a.unavailableCostCount <= b.unavailableCostCount
    && a.excludedRequestCount <= b.excludedRequestCount
  }

  function Plus(a: Usage, b: Usage): Usage {
    Usage(a.requestCount + b.requestCount, a.tokens + b.tokens, a.inputTokens + b.inputTokens,
          a.outputTokens + b.outputTokens, a.cachedTokens + b.cachedTokens,
          a.missingTokenCount + b.missingTokenCount, a.knownCostCount + b.knownCostCount,
          a.unavailableCostCount + b.unavailableCostCount, a.usd + b.usd,
          a.excludedRequestCount + b.excludedRequestCount)
  }

  /** `checked_sub`. */
  function Sub(a: nat, b: nat): Option<nat> { if b <= a then Some(a - b) else None }

  /**
   `difference`: what to add to the baseline to get the total, or `None` when a
   counter went back. A cost that went back within the tolerance counts as zero.
   */
  function Difference(total: Usage, baseline: Usage): (r: Option<Usage>)
    ensures r.Some? <==> CountsAtMost(baseline, total) && total.usd - baseline.usd >= -COST_TOLERANCE
    ensures r.Some? ==> Plus(baseline, r.value) == total.(usd := baseline.usd + r.value.usd)
    ensures r.Some? ==> r.value.usd >= 0.0 && 0.0 <= r.value.usd - (total.usd - baseline.usd) <= COST_TOLERANCE
    ensures r.Some? && baseline.usd <= total.usd ==> baseline.usd + r.value.usd == total.usd
  {
    var usd := total.usd - baseline.usd;
    if usd < -COST_TOLERANCE then None
    else
      match (Sub(total.requestCount, baseline.requestCount), Sub(total.tokens, baseline.tokens),
             Sub(total.inputTokens, baseline.inputTokens), Sub(total.outputTokens, baseline.outputTokens),
             Sub(total.cachedTokens, baseline.cachedTokens),
             Sub(total.missingTokenCount, baseline.missingTokenCount),
             Sub(total.knownCostCount, baseline.knownCostCount),
             Sub(total.unavailableCostCount, baseline.unavailableCostCount),
             Sub(total.excludedRequestCount, baseline.excludedRequestCount))
      case (Some(a), Some(b), Some(c), Some(d), Some(e), Some(f), Some(g), Some(h), Some(i)) =>
        Some(Usage(a, b, c, d, e, f, g, h, if usd < 0.0 then 0.0 else usd, i))
      case _ => None
  }

  /** Cumulative usage at one observation of the quota. */
  datatype Point = Point(observedAt: int, usedPercent: real, usage: Usage)

  datatype Method = Cumulative | Incremental

  datatype Sample = Sample(
    key: string,
    method_: Method,
    startAt: int,
    endAt: int,
    baselinePercent: real,
    sampledPercent: real,
    blockCount: nat,
    observationCount: nat,
    pendingRequestCount: nat,
    discontinuous: bool,
    cycleUsage: Usage,
    usage: Usage)

  // ----- Preparing the history

  predicate Retains(startAt: int, current: Point, p: Point) {
    startAt <= p.observedAt < current.observedAt && 0.0 <= p.usedPercent <= 100.0
  }

  function Retained(startAt: int, current: Point, history: seq<Point>): (r: seq<Point>)
    ensures forall i :: 0 <= i < |r| ==> r[i] in history && Retains(startAt, current, r[i])
    ensures forall p :: p in history && Retains(startAt, current, p) ==> p in r
  {
    if history == [] then []
    else
      var rest := Retained(startAt, current, history[1..]);
      if Retains(startAt, current, history[0]) then [history[0]] + rest else rest
  }

  ghost predicate SortedByTime(s: seq<Point>) {
    forall i, j :: 0 <= i < j < |s| ==> s[i].observedAt <= s[j].observedAt
  }

  function InsertByTime(s: seq<Point>, p: Point): (r: seq<Point>)
    ensures |r| == |s| + 1
    ensures multiset(r) == multiset(s) + multiset{p}
  {
    if s == [] || s[|s| - 1].observedAt <= p.observedAt then s + [p]
    else
      assert s == s[..|s| - 1] + [s[|s| - 1]];
      InsertByTime(s[..|s| - 1], p) + [s[|s| - 1]]
  }

  /** `sort_by_key(observed_at)`, which is stable. */
  function SortByTime(s: seq<Point>): (r: seq<Point>)
    ensures multiset(r) == multiset(s)
  {
    if s == [] then []
    else
      assert s == s[..|s| - 1] + [s[|s| - 1]];
      InsertByTime(SortByTime(s[..|s| - 1]), s[|s| - 1])
  }

  lemma {:induction false} InsertKeepsSorted(s: seq<Point>, p: Point)
    requires SortedByTime(s)
    ensures SortedByTime(InsertByTime(s, p))
  {
    if s != [] && s[|s| - 1].observedAt > p.observedAt {
      var front := s[..|s| - 1];
      InsertKeepsSorted(front, p);
      var head := InsertByTime(front, p);
      forall i | 0 <= i < |head|
        ensures head[i].observedAt <= s[|s| - 1].observedAt
      {
        assert head[i] in multiset(head);
      }
    }
  }

  lemma {:induction false} SortSorts(s: seq<Point>)
    ensures SortedByTime(SortByTime(s))
  {
    if s != [] {
      SortSorts(s[..|s| - 1]);
      InsertKeepsSorted(SortByTime(s[..|s| - 1]), s[|s| - 1]);
    }
  }

  lemma SortKeepsMembers(s: seq<Point>)
    ensures forall i :: 0 <= i < |SortByTime(s)| ==> SortByTime(s)[i] in s
  {
    var r := SortByTime(s);
    forall i | 0 <= i < |r|
      ensures r[i] in s
    {
      assert r[i] in multiset(r);
    }
  }

  function AtTime(s: seq<Point>, t: int): seq<Point> {
    if s == [] then []
    else AtTime(s[..|s| - 1], t) + if s[|s| - 1].observedAt == t then [s[|s| - 1]] else []
  }

  lemma {:induction false} InsertKeepsOrderAtTime(s: seq<Point>, p: Point, t: int)
    ensures AtTime(InsertByTime(s, p), t) == AtTime(s + [p], t)
  {
    if s == [] || s[|s| - 1].observedAt <= p.observedAt {
    } else {
      var front := s[..|s| - 1];
      var last := s[|s| - 1];
      InsertKeepsOrderAtTime(front, p, t);
      assert (InsertByTime(front, p) + [last])[..|s|] == InsertByTime(front, p);
      assert (front + [p])[..|front|] == front && (s + [p])[..|s|] == s;
    }
  }

  /** The sort keeps observations of equal time in their order. */
  lemma {:induction false} SortIsStable(s: seq<Point>, t: int)
    ensures AtTime(SortByTime(s), t) == AtTime(s, t)
  {
    if s != [] {
      var front := s[..|s| - 1];
      var last := s[|s| - 1];
      SortIsStable(front, t);
      InsertKeepsOrderAtTime(SortByTime(front), last, t);
      assert (SortByTime(front) + [last])[..|SortByTime(front)|] == SortByTime(front);
    }
  }

  /** The points the scan walks: the retained history in time order, then the current point. */
  function Points(startAt: int, current: Point, history: seq<Point>): (r: seq<Point>)
    ensures SortedByTime(r) && |r| > 0 && r[|r| - 1] == current
    ensures forall i :: 0 <= i < |r| - 1 ==> Retains(startAt, current, r[i])
  {
    var retained := Retained(startAt, current, history);
    SortSorts(retained);
    SortKeepsMembers(retained);
    SortByTime(retained) + [current]
  }

  // ----- The scan

  /** Indices into the points: running maximum, block anchors, and the last reset. */
  datatype Scan = Scan(highWater: Option<nat>, anchors: seq<nat>, reset: Option<nat>)

  ghost predicate ScanIn(points: seq<Point>, s: Scan, n: nat) {
    && n <= |points|
    && (s.highWater.Some? ==> s.highWater.value < n)
    && (forall j :: 0 <= j < |s.anchors| ==> s.anchors[j] < n)
    && (s.reset.Some? ==> s.reset.value < n)
  }

  /** One turn of the loop of `select_forecast_sample`. */
  function ScanStep(points: seq<Point>, s: Scan, i: nat): (r: Scan)
    requires i < |points| && ScanIn(points, s, i)
    ensures ScanIn(points, r, i + 1)
  {
    var p := points[i];
    if s.highWater.Some? && p.observedAt <= points[s.highWater.value].observedAt then s
    else if s.highWater.Some? && p.usedPercent < points[s.highWater.value].usedPercent then
      if points[s.highWater.value].usedPercent - p.usedPercent <= 1.0 then s
      else Scan(Some(i), [i], Some(i))
    else if s.anchors == []
      || p.usedPercent - points[s.anchors[|s.anchors| - 1]].usedPercent >= MIN_BLOCK_PERCENT
    then s.(highWater := Some(i), anchors := s.anchors + [i])
    else s.(highWater := Some(i))
  }

  function ScanUpTo(points: seq<Point>, n: nat): (s: Scan)
    requires n <= |points|
    ensures ScanIn(points, s, n)
  {
    if n == 0 then Scan(None, [], None) else ScanStep(points, ScanUpTo(points, n - 1), n - 1)
  }

  /** An observation no later than the running maximum says nothing. */
  ghost predicate Ignored(points: seq<Point>, i: nat)
    requires i < |points|
  {
    var h := ScanUpTo(points, i).highWater;
    h.Some? && points[i].observedAt <= points[h.value].observedAt
  }

  /** An observation more than one point below the running maximum. */
  ghost predicate Drop(points: seq<Point>, i: nat)
    requires i < |points|
  {
    var h := ScanUpTo(points, i).highWater;
    !Ignored(points, i) && h.Some? && points[i].usedPercent < points[h.value].usedPercent - 1.0
  }

  /** Anchors rise by at least one block, up to the running maximum, which is less than a block above the last. */
  ghost predicate AnchorsOk(points: seq<Point>, s: Scan) {
    && ScanIn(points, s, |points|) && s.highWater.Some? && s.anchors != []
    && (forall j, k :: 0 <= j < k < |s.anchors| ==> s.anchors[j] < s.anchors[k])
    && (forall j :: 0 <= j < |s.anchors| - 1 ==>
          points[s.anchors[j + 1]].usedPercent - points[s.anchors[j]].usedPercent >= MIN_BLOCK_PERCENT)
    && points[s.anchors[|s.anchors| - 1]].usedPercent <= points[s.highWater.value].usedPercent
    && points[s.highWater.value].usedPercent - points[s.anchors[|s.anchors| - 1]].usedPercent < MIN_BLOCK_PERCENT
    && s.anchors[0] == (if s.reset.Some? then s.reset.value else 0)
  }

  /** No drop after the first anchor, which is the last reset or the first point. */
  ghost predicate NoDropSince(points: seq<Point>, from: nat, n: nat)
    requires n <= |points|
  {
    forall i :: from < i < n ==> !Drop(points, i)
  }

  /** The observations the scan takes into account. */
  ghost function Counted(points: seq<Point>, n: nat): set<nat>
    requires n <= |points|
  {
    set i: nat | i < n && !Ignored(points, i)
  }

  /** Since `from`, nothing counted exceeds `top`, nor falls more than one point below what came before. */
  ghost predicate LevelSince(points: seq<Point>, counted: set<nat>, from: nat, top: real) {
    && (forall i :: i in counted ==> i < |points|)
    && (forall i :: i in counted && from <= i ==> points[i].usedPercent <= top)
    && (forall i, j :: i in counted && j in counted && from <= i <= j ==>
          points[j].usedPercent >= points[i].usedPercent - 1.0)
  }

  lemma StepKeepsAnchors(points: seq<Point>, s: Scan, i: nat)
    requires i < |points| && ScanIn(points, s, i) && AnchorsOk(points, s)
    ensures AnchorsOk(points, ScanStep(points, s, i))
  {
  }

  lemma {:induction false} ScanKeepsAnchors(points: seq<Point>, n: nat)
    requires 0 < n <= |points|
    ensures AnchorsOk(points, ScanUpTo(points, n))
  {
    if n == 1 {
      assert ScanUpTo(points, 1) == ScanStep(points, ScanUpTo(points, 0), 0);
    } else {
      ScanKeepsAnchors(points, n - 1);
      StepKeepsAnchors(points, ScanUpTo(points, n - 1), n - 1);
    }
  }

  lemma {:induction false} ScanHasTop(points: seq<Point>, n: nat)
    requires 0 < n <= |points|
    ensures ScanUpTo(points, n).highWater.Some? && ScanUpTo(points, n).anchors != []
  {
    if n > 1 {
      ScanHasTop(points, n - 1);
    }
  }

  /** A step either resets, exactly on a drop, or keeps the first anchor and the last reset. */
  lemma StepResetsOnDrop(points: seq<Point>, t: Scan, i: nat)
    requires i < |points| && ScanIn(points, t, i) && t.highWater.Some? && t.anchors != []
    ensures var s := ScanStep(points, t, i);
      var drop := points[i].observedAt > points[t.highWater.value].observedAt
                  && points[i].usedPercent < points[t.highWater.value].usedPercent - 1.0;
      if drop then s == Scan(Some(i), [i], Some(i))
      else s.anchors != [] && s.anchors[0] == t.anchors[0] && s.reset == t.reset
  {
  }

  lemma {:induction false} ScanSeesNoLaterDrop(points: seq<Point>, n: nat)
    requires 0 < n <= |points|
    ensures var s := ScanUpTo(points, n);
      && s.anchors != []
      && NoDropSince(points, s.anchors[0], n)
      && (s.reset.Some? ==> Drop(points, s.reset.value))
  {
    if n == 1 {
      assert ScanUpTo(points, 1) == ScanStep(points, ScanUpTo(points, 0), 0);
    } else {
      ScanSeesNoLaterDrop(points, n - 1);
      ScanHasTop(points, n - 1);
      var t := ScanUpTo(points, n - 1);
      StepResetsOnDrop(points, t, n - 1);
      assert ScanUpTo(points, n) == ScanStep(points, t, n - 1);
    }
  }

  lemma LevelExtends(points: seq<Point>, counted: set<nat>, from: nat, n: nat, top: real, top': real)
    requires n < |points| && LevelSince(points, counted, from, top) && forall i :: i in counted ==> i < n
    requires top <= top' && top - 1.0 <= points[n].usedPercent <= top'
    ensures LevelSince(points, counted + {n}, from, top')
  {
  }

  lemma LevelStarts(points: seq<Point>, counted: set<nat>, n: nat)
    requires n < |points| && forall i :: i in counted ==> i <= n
    ensures LevelSince(points, counted, n, points[n].usedPercent)
  {
  }

  lemma CountedStep(points: seq<Point>, n: nat)
    requires n < |points|
    ensures Counted(points, n + 1) == Counted(points, n) + if Ignored(points, n) then {} else {n}
    ensures forall i :: i in Counted(points, n) ==> i < n
  {
  }

  lemma StepCases(points: seq<Point>, t: Scan, i: nat)
    requires i < |points| && ScanIn(points, t, i) && t.highWater.Some? && t.anchors != []
    ensures var s := ScanStep(points, t, i);
      || s == Scan(Some(i), [i], Some(i))
      || (&& s.highWater.Some? && s.anchors != [] && s.anchors[0] == t.anchors[0]
          && points[t.highWater.value].usedPercent <= points[s.highWater.value].usedPercent
          && (points[i].observedAt <= points[t.highWater.value].observedAt
              || points[t.highWater.value].usedPercent - 1.0 <= points[i].usedPercent
                 <= points[s.highWater.value].usedPercent))
  {
  }

  lemma {:induction false} ScanKeepsLevel(points: seq<Point>, n: nat)
    requires 0 < n <= |points|
    ensures var s := ScanUpTo(points, n);
      && s.highWater.Some? && s.anchors != [] && s.anchors[0] < n
      && LevelSince(points, Counted(points, n), s.anchors[0], points[s.highWater.value].usedPercent)
  {
    CountedStep(points, n - 1);
    LevelStarts(points, Counted(points, n), n - 1);
    if n == 1 {
      assert ScanUpTo(points, 1) == ScanStep(points, ScanUpTo(points, 0), 0);
    } else {
      ScanKeepsLevel(points, n - 1);
      var t := ScanUpTo(points, n - 1);
      StepCases(points, t, n - 1);
      var s := ScanStep(points, t, n - 1);
      assert ScanUpTo(points, n) == s;
      if s != Scan(Some(n - 1), [n - 1], Some(n - 1)) {
        var top, top' := points[t.highWater.value].usedPercent, points[s.highWater.value].usedPercent;
        if Ignored(points, n - 1) {
          assert Counted(points, n) == Counted(points, n - 1);
          assert LevelSince(points, Counted(points, n), s.anchors[0], top');
        } else {
          LevelExtends(points, Counted(points, n - 1), t.anchors[0], n - 1, top, top');
        }
      }
    }
  }

  // ----- The sample

  /** The index of the baseline anchor: three blocks back, or the first. */
  function BaselineIndex(anchors: seq<nat>): (i: nat)
    ensures anchors != [] ==> i < |anchors|
    ensures |anchors| >= 2 ==> 1 <= |anchors| - 1 - i <= RECENT_BLOCKS
  {
    if |anchors| >= RECENT_BLOCKS + 1 then |anchors| - (RECENT_BLOCKS + 1) else 0
  }

  function CumulativeSample(key: string, startAt: int, current: Point, kept: nat, pending: nat, discontinuous: bool)
    : Sample
  {
    Sample(key, Cumulative, startAt, current.observedAt, 0.0, current.usedPercent, 0, kept, pending, discontinuous,
           current.usage, current.usage)
  }

  /** What the scan result becomes, from the loop to the end of `select_forecast_sample`. */
  function Conclude(base: Sample, points: seq<Point>, scan: Scan, interrupted: bool): Sample
    requires points != [] && ScanIn(points, scan, |points|)
  {
    var current := points[|points| - 1];
    var start := if scan.reset.Some? then scan.reset else if interrupted then Some(0) else None;
    var cycle := if start.Some? then Difference(current.usage, points[start.value].usage) else Some(current.usage);
    var broken := base.(discontinuous := interrupted || scan.reset.Some?);
    if cycle.None? then broken.(discontinuous := true)
    else
      var sample := broken.(cycleUsage := cycle.value);
      if |scan.anchors| < 2 then sample
      else
        var b := BaselineIndex(scan.anchors);
        var baseline := points[scan.anchors[b]];
        var progress := current.usedPercent - baseline.usedPercent;
        if progress < MIN_BLOCK_PERCENT then sample
        else
          var usage := Difference(current.usage, baseline.usage);
          if usage.None? then sample.(discontinuous := true)
          else if usage.value.requestCount == 0 then sample
          else sample.(method_ := Incremental, startAt := baseline.observedAt,
                       baselinePercent := baseline.usedPercent, sampledPercent := progress,
                       blockCount := |scan.anchors| - b - 1, usage := usage.value, discontinuous := false)
  }

  /** The sample as a function of its inputs, for the laws below. */
  function SampleOf(key: string, startAt: int, current: Point, history: seq<Point>, pending: nat, interrupted: bool)
    : Sample
  {
    var points := Points(startAt, current, history);
    Conclude(CumulativeSample(key, startAt, current, |points| - 1, pending, interrupted),
             points, ScanUpTo(points, |points|), interrupted)
  }

  /** The loop of `select_forecast_sample`. */
  method ScanForAnchors(points: seq<Point>) returns (highWater: Option<nat>, anchors: seq<nat>, reset: Option<nat>)
    ensures Scan(highWater, anchors, reset) == ScanUpTo(points, |points|)
  {
    highWater, anchors, reset := None, [], None;
    for i := 0 to |points|
      invariant Scan(highWater, anchors, reset) == ScanUpTo(points, i)
    {
      assert ScanUpTo(points, i + 1) == ScanStep(points, ScanUpTo(points, i), i);
      var point := points[i];
      if highWater.Some? {
        var previous := points[highWater.value];
        if point.observedAt <= previous.observedAt {
          continue;
        }
        if point.usedPercent < previous.usedPercent {
          if previous.usedPercent - point.usedPercent <= 1.0 {
            continue;
          }
          anchors := [];
          reset := Some(i);
        }
      }
      highWater := Some(i);
      if anchors == [] || point.usedPercent - points[anchors[|anchors| - 1]].usedPercent >= MIN_BLOCK_PERCENT {
        anchors := anchors + [i];
      }
    }
  }

  /** `select_forecast_sample`. */
  method SelectForecastSample(key: string, startAt: int, current: Point, history: seq<Point>, pending: nat,
                              interrupted: bool)
    returns (sample: Sample)
    ensures sample == SampleOf(key, startAt, current, history, pending, interrupted)
  {
    var points := Points(startAt, current, history);
    sample := CumulativeSample(key, startAt, current, |points| - 1, pending, interrupted);
    var highWater, anchors, reset := ScanForAnchors(points);
    sample := Measure(sample, points, Scan(highWater, anchors, reset), interrupted);
  }

  /** The rest of `select_forecast_sample`. */
  method Measure(base: Sample, points: seq<Point>, scan: Scan, interrupted: bool) returns (sample: Sample)
    requires points != [] && ScanIn(points, scan, |points|)
    ensures sample == Conclude(base, points, scan, interrupted)
  {
    var current := points[|points| - 1];
    sample := base.(discontinuous := interrupted || scan.reset.Some?);
    var cycleStart := if scan.reset.Some? then scan.reset else if interrupted then Some(0) else None;
    if cycleStart.Some? {
      var usage := Difference(current.usage, points[cycleStart.value].usage);
      if usage.None? {
        return sample.(discontinuous := true);
      }
      sample := sample.(cycleUsage := usage.value);
    } else {
      sample := sample.(cycleUsage := current.usage);
    }
    if |scan.anchors| < 2 {
      return;
    }
    var baselineIndex := BaselineIndex(scan.anchors);
    var baseline := points[scan.anchors[baselineIndex]];
    var progress := current.usedPercent - baseline.usedPercent;
    if progress < MIN_BLOCK_PERCENT {
      return;
    }
    var usage := Difference(current.usage, baseline.usage);
    if usage.None? {
      return sample.(discontinuous := true);
    }
    if usage.value.requestCount == 0 {
      return;
    }
    sample := sample.(method_ := Incremental, startAt := baseline.observedAt, baselinePercent := baseline.usedPercent,
                      sampledPercent := progress, blockCount := |scan.anchors| - baselineIndex - 1,
                      usage := usage.value, discontinuous := false);
  }

  // ----- The laws of a sample

  lemma {:induction false} AnchorsSpread(points: seq<Point>, s: Scan, j: nat, k: nat)
    requires AnchorsOk(points, s) && j <= k < |s.anchors|
    ensures points[s.anchors[k]].usedPercent - points[s.anchors[j]].usedPercent >= 5.0 * (k - j) as real
    decreases k - j
  {
    if j < k {
      AnchorsSpread(points, s, j, k - 1);
    }
  }

  lemma CurrentNotIgnored(startAt: int, current: Point, history: seq<Point>)
    ensures var points := Points(startAt, current, history);
            !Ignored(points, |points| - 1)
  {
  }

  /** The current point is at most one point below the running maximum, or is the reset itself. */
  lemma CurrentNearTop(points: seq<Point>)
    requires points != [] && !Ignored(points, |points| - 1)
    ensures var s := ScanUpTo(points, |points|);
            s.highWater.Some? && points[|points| - 1].usedPercent >= points[s.highWater.value].usedPercent - 1.0
  {
    var n := |points| - 1;
    assert ScanUpTo(points, n + 1) == ScanStep(points, ScanUpTo(points, n), n);
    if n > 0 {
      ScanHasTop(points, n);
      NearTopStep(points, ScanUpTo(points, n), n);
    }
  }

  lemma NearTopStep(points: seq<Point>, t: Scan, i: nat)
    requires i < |points| && ScanIn(points, t, i) && t.highWater.Some? && t.anchors != []
    requires points[i].observedAt > points[t.highWater.value].observedAt
    ensures var s := ScanStep(points, t, i);
            s.highWater.Some? && points[i].usedPercent >= points[s.highWater.value].usedPercent - 1.0
  {
  }

  /** An incremental sample in the words of its promise: see `IncrementalSampleIsSound`. */
  ghost predicate SoundIncrement(sample: Sample, points: seq<Point>, b: nat)
    requires b < |points| - 1
  {
    var current := points[|points| - 1];
    && sample.startAt == points[b].observedAt && sample.baselinePercent == points[b].usedPercent
    && NoDropSince(points, b, |points|)
    && 1 <= sample.blockCount <= 3
    && sample.sampledPercent == current.usedPercent - points[b].usedPercent
    && sample.sampledPercent >= 5.0
    && sample.sampledPercent >= 5.0 * sample.blockCount as real - 1.0
    && Difference(current.usage, points[b].usage) == Some(sample.usage)
    && sample.usage.requestCount > 0 && !sample.discontinuous
  }

  /**
   For every history, an incremental sample starts at an observation with no drop
   after it, spans one to three blocks, has enough progress, and measures exactly
   the usage since then.
   */
  lemma IncrementalSampleIsSound(key: string, startAt: int, current: Point, history: seq<Point>, pending: nat,
                                 interrupted: bool)
    returns (b: nat)
    requires SampleOf(key, startAt, current, history, pending, interrupted).method_ == Incremental
    ensures var points := Points(startAt, current, history);
            b < |points| - 1
            && SoundIncrement(SampleOf(key, startAt, current, history, pending, interrupted), points, b)
  {
    var points := Points(startAt, current, history);
    var n := |points|;
    var scan := ScanUpTo(points, n);
    ScanKeepsAnchors(points, n);
    ScanSeesNoLaterDrop(points, n);
    CurrentNotIgnored(startAt, current, history);
    CurrentNearTop(points);
    var i := BaselineIndex(scan.anchors);
    b := scan.anchors[i];
    AnchorsSpread(points, scan, i, |scan.anchors| - 1);
    assert b < scan.anchors[|scan.anchors| - 1];
  }

  /** The anchor that an incremental sample is measured from: three blocks back, or the first. */
  function BaselineOf(points: seq<Point>, anchors: seq<nat>): Point
    requires anchors != [] && forall j :: 0 <= j < |anchors| ==> anchors[j] < |points|
  {
    points[anchors[if |anchors| <= 3 then 0 else |anchors| - 4]]
  }

  /** The usage since the last reset, or since the first point if interrupted, can be measured. */
  ghost predicate CycleMeasured(points: seq<Point>, reset: Option<nat>, interrupted: bool)
    requires points != [] && (reset.Some? ==> reset.value < |points|)
  {
    var current := points[|points| - 1].usage;
    && (reset.Some? ==> Difference(current, points[reset.value].usage).Some?)
    && (reset.None? && interrupted ==> Difference(current, points[0].usage).Some?)
  }

  ghost predicate SpansBlock(points: seq<Point>, anchors: seq<nat>)
    requires points != [] && anchors != [] && forall j :: 0 <= j < |anchors| ==> anchors[j] < |points|
  {
    |anchors| >= 2 && points[|points| - 1].usedPercent - BaselineOf(points, anchors).usedPercent >= 5.0
  }

  /** The sample is incremental exactly under these conditions. */
  ghost predicate IncrementalWhen(sample: Sample, points: seq<Point>, scan: Scan, interrupted: bool)
    requires points != [] && ScanIn(points, scan, |points|) && scan.anchors != []
  {
    var base := BaselineOf(points, scan.anchors);
    var usage := Difference(points[|points| - 1].usage, base.usage);
    && (sample.method_ == Incremental <==>
          && SpansBlock(points, scan.anchors) && CycleMeasured(points, scan.reset, interrupted)
          && usage.Some? && usage.value.requestCount > 0)
    && (sample.method_ == Incremental ==>
          sample.blockCount == Min(3, |scan.anchors| - 1) && sample.startAt == base.observedAt)
  }

  /** A cumulative sample is unusable exactly after an interruption, a reset or counters that went back. */
  ghost predicate DiscontinuousWhen(sample: Sample, points: seq<Point>, scan: Scan, interrupted: bool)
    requires points != [] && ScanIn(points, scan, |points|) && scan.anchors != []
  {
    sample.method_ == Cumulative ==>
      (sample.discontinuous <==>
        || interrupted || scan.reset.Some?
        || (SpansBlock(points, scan.anchors)
            && Difference(points[|points| - 1].usage, BaselineOf(points, scan.anchors).usage).None?))
  }

  lemma ConclusionWhen(base: Sample, points: seq<Point>, scan: Scan, interrupted: bool)
    requires points != [] && ScanIn(points, scan, |points|) && scan.anchors != [] && base.method_ == Cumulative
    ensures IncrementalWhen(Conclude(base, points, scan, interrupted), points, scan, interrupted)
    ensures DiscontinuousWhen(Conclude(base, points, scan, interrupted), points, scan, interrupted)
  {
  }

  lemma ConclusionKeeps(base: Sample, points: seq<Point>, scan: Scan, interrupted: bool)
    requires points != [] && ScanIn(points, scan, |points|) && base.method_ == Cumulative
    ensures var sample := Conclude(base, points, scan, interrupted);
      && sample.key == base.key && sample.endAt == base.endAt
      && sample.pendingRequestCount == base.pendingRequestCount && sample.observationCount == base.observationCount
      && (sample.method_ == Cumulative ==>
            sample == base.(discontinuous := sample.discontinuous, cycleUsage := sample.cycleUsage))
  {
  }

  /**
   For every history the sample is incremental exactly when there are two anchors, the
   progress since the baseline is a block, and the usage since it is measured and not
   empty; then it spans as many blocks as there are, up to three. A cumulative one is
   unusable exactly after an interruption, a reset or counters that went back.
   */
  lemma IncrementalIff(key: string, startAt: int, current: Point, history: seq<Point>, pending: nat, interrupted: bool)
    ensures var points := Points(startAt, current, history);
      var scan := ScanUpTo(points, |points|);
      var sample := SampleOf(key, startAt, current, history, pending, interrupted);
      && scan.anchors != []
      && IncrementalWhen(sample, points, scan, interrupted) && DiscontinuousWhen(sample, points, scan, interrupted)
  {
    var points := Points(startAt, current, history);
    ScanHasTop(points, |points|);
    ConclusionWhen(CumulativeSample(key, startAt, current, |points| - 1, pending, interrupted), points,
                   ScanUpTo(points, |points|), interrupted);
  }

  /** What every sample carries; a cumulative one is the whole usage up to the current point. */
  lemma SampleShape(key: string, startAt: int, current: Point, history: seq<Point>, pending: nat, interrupted: bool)
    ensures var sample := SampleOf(key, startAt, current, history, pending, interrupted);
      && sample.key == key && sample.endAt == current.observedAt && sample.pendingRequestCount == pending
      && sample.observationCount == |Retained(startAt, current, history)|
      && (sample.method_ == Cumulative ==>
            && sample.startAt == startAt && sample.baselinePercent == 0.0 && sample.blockCount == 0
            && sample.sampledPercent == current.usedPercent && sample.usage == current.usage)
  {
    var points := Points(startAt, current, history);
    SortKeepsLength(Retained(startAt, current, history));
    ConclusionKeeps(CumulativeSample(key, startAt, current, |points| - 1, pending, interrupted), points,
                    ScanUpTo(points, |points|), interrupted);
  }

  lemma SortKeepsLength(s: seq<Point>)
    ensures |SortByTime(s)| == |s|
  {
    assert |multiset(SortByTime(s))| == |multiset(s)|;
  }

  /** Without a drop the cycle usage is everything, or after an interruption what came since the first point. */
  lemma CycleUsageWithoutDrop(key: string, startAt: int, current: Point, history: seq<Point>, pending: nat,
                              interrupted: bool)
    requires var points := Points(startAt, current, history);
      forall i :: 0 <= i < |points| ==> !Drop(points, i)
    ensures var sample := SampleOf(key, startAt, current, history, pending, interrupted);
      var first := Points(startAt, current, history)[0];
      && (!interrupted ==> sample.cycleUsage == current.usage)
      && (interrupted ==> match Difference(current.usage, first.usage)
            case Some(usage) => sample.cycleUsage == usage
            case None => sample.cycleUsage == current.usage && sample.discontinuous)
  {
    var points := Points(startAt, current, history);
    NoDropNoReset(points, |points|);
    ConclusionWithoutReset(CumulativeSample(key, startAt, current, |points| - 1, pending, interrupted), points,
                           ScanUpTo(points, |points|), interrupted);
  }

  lemma {:induction false} NoDropNoReset(points: seq<Point>, n: nat)
    requires 0 < n <= |points| && forall i :: 0 <= i < n ==> !Drop(points, i)
    ensures ScanUpTo(points, n).reset == None
  {
    if n == 1 {
      assert ScanUpTo(points, 1) == ScanStep(points, ScanUpTo(points, 0), 0);
    } else {
      ScanResetsOnDrop(points, n);
      NoDropNoReset(points, n - 1);
    }
  }

  lemma ConclusionWithoutReset(base: Sample, points: seq<Point>, scan: Scan, interrupted: bool)
    requires points != [] && ScanIn(points, scan, |points|) && scan.reset.None?
    requires base.method_ == Cumulative && base.cycleUsage == points[|points| - 1].usage
    ensures var sample := Conclude(base, points, scan, interrupted);
      var current := points[|points| - 1];
      && (!interrupted ==> sample.cycleUsage == current.usage)
      && (interrupted ==> match Difference(current.usage, points[0].usage)
            case Some(usage) => sample.cycleUsage == usage
            case None => sample.cycleUsage == current.usage && sample.discontinuous)
  {
  }

  /** The cycle usage starts at the last drop; counters that went back make the sample unusable. */
  lemma CycleUsageStartsAtLastDrop(key: string, startAt: int, current: Point, history: seq<Point>, pending: nat,
                                   interrupted: bool, d: nat)
    requires var points := Points(startAt, current, history);
             d < |points| && Drop(points, d) && NoDropSince(points, d, |points|)
    ensures var sample := SampleOf(key, startAt, current, history, pending, interrupted);
      match Difference(current.usage, Points(startAt, current, history)[d].usage)
      case Some(usage) => sample.cycleUsage == usage && (sample.method_ == Cumulative ==> sample.discontinuous)
      case None => sample.cycleUsage == current.usage && sample.method_ == Cumulative && sample.discontinuous
  {
    var points := Points(startAt, current, history);
    FirstPointNoDrop(points);
    LastDropIsReset(points, d, |points|);
  }

  /** The scan of one more point resets exactly on a drop. */
  lemma ScanResetsOnDrop(points: seq<Point>, n: nat)
    requires 1 < n <= |points|
    ensures ScanUpTo(points, n).reset == if Drop(points, n - 1) then Some(n - 1) else ScanUpTo(points, n - 1).reset
  {
    ScanHasTop(points, n - 1);
    StepResetsOnDrop(points, ScanUpTo(points, n - 1), n - 1);
  }

  lemma {:induction false} LastDropIsReset(points: seq<Point>, d: nat, n: nat)
    requires 0 < d < n <= |points| && Drop(points, d) && NoDropSince(points, d, n)
    ensures ScanUpTo(points, n).reset == Some(d)
    decreases n
  {
    ScanResetsOnDrop(points, n);
    if d < n - 1 {
      assert !Drop(points, n - 1);
      LastDropIsReset(points, d, n - 1);
    }
  }

  lemma FirstPointNoDrop(points: seq<Point>)
    requires points != []
    ensures !Drop(points, 0)
  {
  }

  /** Since the last reset every counted observation stays within one point of all before it. */
  lemma NoDeepFallAfterReset(points: seq<Point>, i: nat, j: nat)
    requires points != [] && ScanUpTo(points, |points|).anchors != []
    requires ScanUpTo(points, |points|).anchors[0] <= i <= j
    requires i in Counted(points, |points|) && j in Counted(points, |points|)
    ensures points[j].usedPercent >= points[i].usedPercent - 1.0
  {
    ScanKeepsLevel(points, |points|);
  }
}
