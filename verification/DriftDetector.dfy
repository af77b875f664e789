/**
 The drift detector: bounded windows of observed behaviour per tool, baselines
 taken from them, z-scores and anomaly lists. Sample standard deviations are
 handed in as square roots of the sample variance.
 */
module DriftDetector {
  import opened Vectors

  type Tool = string

  datatype Behavior = Behavior(executionTime: real, memoryUsage: real, errorRate: real, returnSize: real)
  datatype Stats = Stats(mean: real, stdev: real, count: nat)
  datatype Baseline = Baseline(executionTime: Stats, errorRate: real)
  datatype Anomaly = Anomaly(index: nat, expected: real, actual: real, zScore: real)
  datatype UpdateOutcome = TooFewSamples | Updated | NoDataError

  function Times(window: seq<Behavior>): Vector {
    seq(|window|, i requires 0 <= i < |window| => window[i].executionTime)
  }

  function ErrorRates(window: seq<Behavior>): Vector {
    seq(|window|, i requires 0 <= i < |window| => window[i].errorRate)
  }

  /** A deque of bounded length: appending to a full one drops the oldest entry. */
  function Push(window: seq<Behavior>, b: Behavior, size: nat): seq<Behavior> {
    var longer := window + [b];
    if |longer| <= size then longer else longer[|longer| - size..]
  }

  function Mean(v: Vector): real
    requires v != []
  {
    Sum(v) / |v| as real
  }

  function Deviations(v: Vector, mean: real): Vector {
    seq(|v|, i requires 0 <= i < |v| => v[i] - mean)
  }

  function GetStats(v: Vector, stdev: real): Stats {
    if v == [] then Stats(0.0, 0.0, 0) else Stats(Mean(v), if |v| > 1 then stdev else 0.0, |v|)
  }

  /** `stdev` is the sample standard deviation of two or more values. */
  ghost predicate IsSampleDeviation(v: Vector, stdev: real) {
    |v| > 1 ==> stdev >= 0.0 && stdev * stdev * (|v| - 1) as real == SumSquares(Deviations(v, Mean(v)))
  }

  function ZScore(value: real, mean: real, stdev: real): real {
    if stdev == 0.0 then 0.0 else (value - mean) / stdev
  }

  /** The execution-time and error-rate components, and the larger of those that apply. */
  function DriftScore(baseline: Baseline, current: Stats, b: Behavior, minSamples: int): real {
    var z := Abs(ZScore(b.executionTime, current.mean, current.stdev));
    var timed := current.count >= minSamples;
    if baseline.errorRate > 0.0 then
      var drift := Abs(b.errorRate - baseline.errorRate) / baseline.errorRate;
      if timed && z > drift then z else drift
    else if timed then z else 0.0
  }

  function AnomalyAt(v: Vector, i: nat, s: Stats): Anomaly
    requires i < |v| && s.stdev > 0.0
  {
    Anomaly(i, s.mean, v[i], (v[i] - s.mean) / s.stdev)
  }

  /** The anomalies among the first n values, in order. */
  function AnomaliesIn(v: Vector, s: Stats, threshold: real, n: nat): seq<Anomaly>
    requires n <= |v|
  {
    if n == 0 || s.stdev <= 0.0 then [] else
      var before, a := AnomaliesIn(v, s, threshold, n - 1), AnomalyAt(v, n - 1, s);
      if Abs(a.zScore) > threshold then before + [a] else before
  }

  class DriftDetector {
    const windowSize: nat
    const driftThreshold: real
    const minSamples: int
    var baselines: map<Tool, Baseline>
    var history: map<Tool, seq<Behavior>>

    constructor (windowSize: nat, driftThreshold: real, minSamples: int)
      ensures this.windowSize == windowSize && this.driftThreshold == driftThreshold && this.minSamples == minSamples
      ensures baselines == map[] && history == map[]
    {
      this.windowSize, this.driftThreshold, this.minSamples := windowSize, driftThreshold, minSamples;
      baselines, history := map[], map[];
    }

    function Window(tool: Tool): (w: seq<Behavior>)
      reads this
      ensures tool !in history ==> w == []
      ensures tool in history ==> w == history[tool]
    {
      if tool in history then history[tool] else []
    }

    method CheckDrift(tool: Tool, b: Behavior, stdev: real) returns (score: real)
      requires IsSampleDeviation(Times(Push(Window(tool), b, windowSize)), stdev)
      modifies this`history
      ensures history == old(history)[tool := Push(old(Window(tool)), b, windowSize)]
      ensures score == if tool in baselines
                       then DriftScore(baselines[tool], GetStats(Times(history[tool]), stdev), b, minSamples) else 0.0
    {
      if tool !in history {
        history := history[tool := []];
      }
      history := history[tool := Push(history[tool], b, windowSize)];
      if tool !in baselines {
        return 0.0;
      }
      var baseline := baselines[tool];
      var scores: seq<real> := [];
      var current := GetStats(Times(history[tool]), stdev);
      if current.count >= minSamples {
        var z := ZScore(b.executionTime, current.mean, current.stdev);
        scores := scores + [Abs(z)];
      }
      if baseline.errorRate > 0.0 {
        scores := scores + [Abs(b.errorRate - baseline.errorRate) / baseline.errorRate];
      }
      score := 0.0;
      if scores != [] {
        score := scores[0];
        if |scores| > 1 && scores[1] > score {
          score := scores[1];
        }
      }
    }

    method UpdateBaseline(tool: Tool, stdev: real) returns (r: UpdateOutcome)
      requires IsSampleDeviation(Times(Window(tool)), stdev)
      modifies this`baselines
      ensures r == if |Window(tool)| < minSamples then TooFewSamples
                   else if Window(tool) == [] then NoDataError else Updated
      ensures baselines ==
              if r.Updated? then
                var w := Window(tool);
                old(baselines)[tool := Baseline(GetStats(Times(w), stdev), Mean(ErrorRates(w)))]
              else old(baselines)
    {
      var window := Window(tool);
      if |window| < minSamples {
        return TooFewSamples;
      }
      if window == [] {
        return NoDataError;
      }
      baselines := baselines[tool := Baseline(GetStats(Times(window), stdev), Mean(ErrorRates(window)))];
      return Updated;
    }

    method DetectAnomalies(tool: Tool) returns (anomalies: seq<Anomaly>)
      ensures anomalies ==
              if tool in history && |Window(tool)| >= minSamples && tool in baselines
              then AnomaliesIn(Times(Window(tool)), baselines[tool].executionTime, driftThreshold, |Window(tool)|)
              else []
    {
      anomalies := [];
      if tool !in history || |history[tool]| < minSamples || tool !in baselines {
        return;
      }
      var times, stats := Times(history[tool]), baselines[tool].executionTime;
      for i := 0 to |times|
        invariant anomalies == AnomaliesIn(times, stats, driftThreshold, i)
      {
        if stats.stdev > 0.0 {
          var z := (times[i] - stats.mean) / stats.stdev;
          if Abs(z) > driftThreshold {
            anomalies := anomalies + [Anomaly(i, stats.mean, times[i], z)];
          }
        }
      }
    }
  }

  // ----- bounds

  /** The score is the largest of the components that apply, and zero when none does. */
  lemma ScoreIsLargest(baseline: Baseline, current: Stats, b: Behavior, minSamples: int)
    ensures var score := DriftScore(baseline, current, b, minSamples);
            var z := Abs(ZScore(b.executionTime, current.mean, current.stdev));
            var timed, rated := current.count >= minSamples, baseline.errorRate > 0.0;
            && score >= 0.0
            && (timed ==> score >= z)
            && (rated ==> score * baseline.errorRate >= Abs(b.errorRate - baseline.errorRate))
            && (score == 0.0 || (timed && score == z)
                || (rated && score * baseline.errorRate == Abs(b.errorRate - baseline.errorRate)))
  {
    if baseline.errorRate > 0.0 {
      var gap, rate := Abs(b.errorRate - baseline.errorRate), baseline.errorRate;
      var drift, score := gap / rate, DriftScore(baseline, current, b, minSamples);
      assert drift * rate == gap;
      assert drift >= 0.0;
      if score > drift {
        PositiveProduct(score - drift, rate, score * rate - gap);
      }
    }
  }

  lemma {:induction false} SumOfDeviations(v: Vector, mean: real)
    ensures Sum(Deviations(v, mean)) == Sum(v) - |v| as real * mean
  {
    if v != [] {
      var d := Deviations(v, mean);
      assert d[..|v| - 1] == Deviations(v[..|v| - 1], mean);
      SumOfDeviations(v[..|v| - 1], mean);
    }
  }

  /** One deviation against the rest: n * d^2 <= (n - 1) * (sum of squares), when deviations sum to zero. */
  lemma LastDeviation(d: Vector)
    requires |d| > 1 && Sum(d) == 0.0
    ensures |d| as real * (d[|d| - 1] * d[|d| - 1]) <= (|d| - 1) as real * SumSquares(d)
  {
    var rest, x, m := d[..|d| - 1], d[|d| - 1], (|d| - 1) as real;
    SquareOfSum(rest);
    assert Sum(rest) == -x;
    var R := SumSquares(rest);
    assert x * x <= m * R;
    assert SumSquares(d) == R + x * x;
    assert m * (R + x * x) == m * R + m * (x * x);
    assert |d| as real * (x * x) == m * (x * x) + x * x;
  }

  /**
   Samuelson's bound: the value just pushed belongs to the window its z-score is taken against,
   so n * z^2 <= (n - 1)^2.
   */
  lemma Samuelson(v: Vector, stdev: real)
    requires |v| > 1 && IsSampleDeviation(v, stdev)
    ensures var n, z := |v| as real, ZScore(v[|v| - 1], Mean(v), stdev);
            n * (z * z) <= (n - 1.0) * (n - 1.0)
  {
    var n, mean := |v| as real, Mean(v);
    var d, m := Deviations(v, mean), n - 1.0;
    if stdev != 0.0 {
      SumOfDeviations(v, mean);
      assert n * mean == Sum(v);
      LastDeviation(d);
      var zz, ss, xx := ZScoreSquares(v[|v| - 1] - mean, stdev);
      ScaledBound(n, m, zz, ss, xx, SumSquares(d));
    } else {
      SquareIsNonnegative(m);
    }
  }

  lemma ZScoreSquares(x: real, stdev: real) returns (zz: real, ss: real, xx: real)
    requires stdev > 0.0
    ensures zz == (x / stdev) * (x / stdev) && ss == stdev * stdev && xx == x * x
    ensures ss > 0.0 && zz * ss == xx
  {
    zz, ss, xx := (x / stdev) * (x / stdev), stdev * stdev, x * x;
    SquareIsPositive(stdev, ss);
    RatioSquared(x, stdev, x / stdev);
  }

  lemma RatioSquared(x: real, stdev: real, z: real)
    requires z * stdev == x
    ensures (z * z) * (stdev * stdev) == x * x
  {}

  lemma ScaledBound(n: real, m: real, zz: real, ss: real, xx: real, total: real)
    requires ss > 0.0 && zz * ss == xx && n * xx <= m * total && ss * m == total
    ensures n * zz <= m * m
  {
    assert (n * zz) * ss == n * xx;
    assert (m * m) * ss == m * total;
    CancelFactor(ss, n * zz, m * m);
  }

  lemma PushedIsLast(window: seq<Behavior>, b: Behavior, size: nat)
    ensures |Push(window, b, size)| <= size
    ensures size > 0 ==> Push(window, b, size) != [] && Push(window, b, size)[|Push(window, b, size)| - 1] == b
  {}

  /** The bound holds for the execution-time component of every check, whatever the window held before. */
  lemma EveryCheckIsBounded(window: seq<Behavior>, b: Behavior, size: nat, stdev: real)
    requires IsSampleDeviation(Times(Push(window, b, size)), stdev)
    ensures var v := Times(Push(window, b, size));
            var s, n := GetStats(v, stdev), |v| as real;
            var z := ZScore(b.executionTime, s.mean, s.stdev);
            n * (z * z) <= (n - 1.0) * (n - 1.0)
  {
    var v := Times(Push(window, b, size));
    PushedIsLast(window, b, size);
    if |v| > 1 {
      assert v[|v| - 1] == b.executionTime;
      Samuelson(v, stdev);
    }
  }

  /**
   With at most five samples in the window the execution-time component cannot exceed 2.0,
   the default alarm threshold.
   */
  lemma QuietOnSmallWindows(window: seq<Behavior>, b: Behavior, size: nat, stdev: real)
    requires var v := Times(Push(window, b, size)); IsSampleDeviation(v, stdev) && |v| <= 5
    ensures var s := GetStats(Times(Push(window, b, size)), stdev);
            Abs(ZScore(b.executionTime, s.mean, s.stdev)) <= 2.0
  {
    var v := Times(Push(window, b, size));
    EveryCheckIsBounded(window, b, size, stdev);
    if |v| > 1 {
      var z, n := ZScore(b.executionTime, Mean(v), stdev), |v| as real;
      assert (n - 1.0) * (n - 1.0) <= n * 4.0;
      CancelFactor(n, z * z, 4.0);
      SquareOrder(z, 2.0);
    }
  }

  function Repeat(x: real, n: nat): Vector {
    seq(n, _ => x)
  }

  lemma {:induction false} RepeatSums(x: real, n: nat)
    ensures Sum(Repeat(x, n)) == n as real * x && SumSquares(Repeat(x, n)) == n as real * (x * x)
  {
    if n > 0 {
      assert Repeat(x, n)[..n - 1] == Repeat(x, n - 1);
      RepeatSums(x, n - 1);
    }
  }

  lemma StoredStats(v: Vector, stdev: real)
    ensures v == [] ==> GetStats(v, stdev) == Stats(0.0, 0.0, 0)
    ensures v != [] ==> GetStats(v, stdev) == Stats(Mean(v), if |v| == 1 then 0.0 else stdev, |v|)
  {}

  lemma StoredMean(v: Vector, stdev: real)
    requires v != []
    ensures |v| as real * GetStats(v, stdev).mean == Sum(v)
  {
    StoredStats(v, stdev);
  }

  /** The deviations of n - 1 values a and one value b. */
  lemma OutlierDeviations(a: real, b: real, n: nat, v: Vector, m: real) returns (e: real, x: real)
    requires n > 1 && a != b && v == Repeat(a, n - 1) + [b] && m == (n - 1) as real
    ensures e == a - Mean(v) != 0.0 && x == b - Mean(v) == -(m * e)
    ensures SumSquares(Deviations(v, Mean(v))) == m * (e * e) + x * x
  {
    StoredMean(v, 0.0);
    RepeatAndOne(v, a, b, n);
    e, x := OutlierMean(a, b, n as real, m, Mean(v));
    RepeatAndOne(Deviations(v, Mean(v)), e, x, n);
  }

  lemma RepeatAndOne(v: Vector, a: real, b: real, n: nat)
    requires n > 1 && v == Repeat(a, n - 1) + [b]
    ensures Sum(v) == (n - 1) as real * a + b && SumSquares(v) == (n - 1) as real * (a * a) + b * b
  {
    assert v[..n - 1] == Repeat(a, n - 1);
    RepeatSums(a, n - 1);
  }

  lemma OutlierMean(a: real, b: real, n: real, m: real, mean: real) returns (e: real, x: real)
    requires n == m + 1.0 && m > 0.0 && a != b && n * mean == m * a + b
    ensures e == a - mean && x == b - mean && e != 0.0 && x == -(m * e)
  {
    e, x := a - mean, b - mean;
    assert m * e == m * a - m * mean;
  }

  /** The bound is sharp: one value different from n - 1 equal ones attains it, for every n. */
  lemma SamuelsonIsSharp(a: real, b: real, n: nat, stdev: real)
    requires n > 1 && a != b && IsSampleDeviation(Repeat(a, n - 1) + [b], stdev)
    ensures var v, m := Repeat(a, n - 1) + [b], (n - 1) as real;
            var z := ZScore(b, Mean(v), stdev);
            n as real * (z * z) == m * m
  {
    var v, m := Repeat(a, n - 1) + [b], (n - 1) as real;
    var e, x := OutlierDeviations(a, b, n, v, m);
    OutlierArithmetic(n as real, m, e, x, stdev);
  }

  /** From six samples on, the same outlier does exceed the default threshold. */
  lemma OutlierAlarmsFromSix(a: real, b: real, n: nat, stdev: real)
    requires n >= 6 && a != b && IsSampleDeviation(Repeat(a, n - 1) + [b], stdev)
    ensures Abs(ZScore(b, Mean(Repeat(a, n - 1) + [b]), stdev)) > 2.0
  {
    SamuelsonIsSharp(a, b, n, stdev);
    var z, k := ZScore(b, Mean(Repeat(a, n - 1) + [b]), stdev), n as real;
    assert (k - 1.0) * (k - 1.0) > 4.0 * k by { assert k * (k - 6.0) >= 0.0; }
    if Abs(z) <= 2.0 {
      SquaresGrow(Abs(z), 2.0);
      ScaleUp(z * z, 4.0, k);
    }
  }

  lemma OutlierArithmetic(n: real, m: real, e: real, x: real, stdev: real)
    requires n == m + 1.0 && m > 0.0 && e != 0.0 && x == -(m * e)
    requires stdev >= 0.0 && stdev * stdev * m == m * (e * e) + x * x
    ensures stdev != 0.0 && n * ((x / stdev) * (x / stdev)) == m * m
  {
    var ee := e * e;
    assert x * x == m * (m * ee);
    assert (stdev * stdev) * m == (n * ee) * m;
    assert stdev * stdev == n * ee by {
      CancelFactor(m, stdev * stdev, n * ee);
      CancelFactor(m, n * ee, stdev * stdev);
    }
    SquareIsPositive(e, ee);
    PositiveProduct(n, ee, n * ee);
    var z := x / stdev;
    assert (z * z) * (stdev * stdev) == x * x;
    assert (n * (z * z)) * ee == (m * m) * ee;
    CancelFactor(ee, n * (z * z), m * m);
    CancelFactor(ee, m * m, n * (z * z));
  }

  // ----- runs of checks

  /** The window after these checks, from an empty one. */
  function Pushed(bs: seq<Behavior>, size: nat): seq<Behavior> {
    if bs == [] then [] else Push(Pushed(bs[..|bs| - 1], size), bs[|bs| - 1], size)
  }

  /** The window holds the latest `size` behaviours, in order. */
  lemma {:induction false} WindowHoldsLatest(bs: seq<Behavior>, size: nat)
    ensures Pushed(bs, size) == if |bs| <= size then bs else bs[|bs| - size..]
  {
    if bs != [] {
      var before, last := bs[..|bs| - 1], bs[|bs| - 1];
      assert bs == before + [last];
      WindowHoldsLatest(before, size);
    }
  }

  lemma StaysDeviation(v: Vector, stdev: real, stored: real)
    requires IsSampleDeviation(v, stdev) && (|v| > 1 ==> stored == stdev)
    ensures IsSampleDeviation(v, stored)
  {}

  /** What is stored of a window: its size, its mean and its sample deviation, which is zero for a single value. */
  lemma StatsAreSample(v: Vector, stdev: real)
    requires v != [] && IsSampleDeviation(v, stdev)
    ensures var s, n := GetStats(v, stdev), |v| as real;
            s.count == |v| && n * s.mean == Sum(v) && (|v| == 1 ==> s.stdev == 0.0)
    ensures IsSampleDeviation(v, GetStats(v, stdev).stdev)
  {
    StoredStats(v, stdev);
    StoredMean(v, stdev);
    StaysDeviation(v, stdev, GetStats(v, stdev).stdev);
  }

  ghost function TotalErrors(window: seq<Behavior>): real {
    if window == [] then 0.0 else TotalErrors(window[..|window| - 1]) + window[|window| - 1].errorRate
  }

  /** The baseline's error rate is the average over the window. */
  lemma {:induction false} ErrorRatesAddUp(window: seq<Behavior>)
    ensures Sum(ErrorRates(window)) == TotalErrors(window)
    ensures window != [] ==> Mean(ErrorRates(window)) * |window| as real == TotalErrors(window)
  {
    if window != [] {
      var rates := ErrorRates(window);
      assert rates[..|rates| - 1] == ErrorRates(window[..|window| - 1]);
      ErrorRatesAddUp(window[..|window| - 1]);
    }
  }

  /** One time b behind times a. */
  ghost predicate OneOutlier(bs: seq<Behavior>, a: real, b: real) {
    && bs != [] && a != b && bs[|bs| - 1].executionTime == b
    && forall i :: 0 <= i < |bs| - 1 ==> bs[i].executionTime == a
  }

  lemma OutlierTimes(bs: seq<Behavior>, a: real, b: real, size: nat)
    requires OneOutlier(bs, a, b) && |bs| <= size
    ensures Times(Pushed(bs, size)) == Repeat(a, |bs| - 1) + [b]
  {
    WindowHoldsLatest(bs, size);
  }

  /**
   After n - 1 checks with one time and one check with another, all of them in the window, the
   check scores above the default threshold from six checks on, if there are enough samples.
   */
  lemma OutlierCheckAlarms(
    bs: seq<Behavior>, a: real, b: real, size: nat, stdev: real, baseline: Baseline, minSamples: int)
    requires OneOutlier(bs, a, b) && 6 <= |bs| <= size && minSamples <= |bs|
    requires IsSampleDeviation(Times(Pushed(bs, size)), stdev)
    ensures DriftScore(baseline, GetStats(Times(Pushed(bs, size)), stdev), bs[|bs| - 1], minSamples) > 2.0
  {
    var v := Times(Pushed(bs, size));
    OutlierTimes(bs, a, b, size);
    OutlierAlarmsFromSix(a, b, |bs|, stdev);
    StatsAreSample(v, stdev);
    ScoreIsLargest(baseline, GetStats(v, stdev), bs[|bs| - 1], minSamples);
  }

  /** Nine times of 10 and one of 1000, as a detector with its default settings sees them. */
  lemma NineTensAndAThousand(bs: seq<Behavior>, stdev: real, baseline: Baseline)
    requires |bs| == 10 && OneOutlier(bs, 10.0, 1000.0) && baseline.errorRate == 0.0
    requires IsSampleDeviation(Times(Pushed(bs, 100)), stdev)
    ensures var score := DriftScore(baseline, GetStats(Times(Pushed(bs, 100)), stdev), bs[9], 10);
            score > 2.0 && score * score * 10.0 == 81.0
  {
    var v := Times(Pushed(bs, 100));
    OutlierTimes(bs, 10.0, 1000.0, 100);
    OutlierCheckAlarms(bs, 10.0, 1000.0, 100, stdev, baseline, 10);
    SamuelsonIsSharp(10.0, 1000.0, 10, stdev);
    AbsSquare(ZScore(1000.0, Mean(v), stdev));
  }

  lemma AbsSquare(x: real)
    ensures Abs(x) * Abs(x) == x * x
  {}

  /** The scores of the outlier and of the others: n z^2 is (n - 1)^2 and 1. */
  lemma OutlierRatios(n: real, m: real, e: real, x: real, stdev: real) returns (za: real, zb: real)
    requires n == m + 1.0 && m > 0.0 && e != 0.0 && x == -(m * e)
    requires stdev >= 0.0 && stdev * stdev * m == m * (e * e) + x * x
    ensures stdev > 0.0 && za == e / stdev && zb == x / stdev
    ensures n * (zb * zb) == m * m && n * (za * za) == 1.0
  {
    OutlierArithmetic(n, m, e, x, stdev);
    za, zb := e / stdev, x / stdev;
    OtherScore(m, e, x, stdev, za, zb);
    OtherSquare(n, m, za * za, zb * zb, m * m);
  }

  lemma OtherScore(m: real, e: real, x: real, stdev: real, ze: real, zx: real)
    requires m > 0.0 && x == -(m * e) && stdev > 0.0 && ze * stdev == e && zx * stdev == x
    ensures zx * zx == (ze * ze) * (m * m) && m * m > 0.0
  {
    var rest := zx + m * ze;
    assert rest * stdev == 0.0;
    if rest > 0.0 { PositiveProduct(rest, stdev, rest * stdev); }
    if rest < 0.0 { PositiveProduct(-rest, stdev, -(rest * stdev)); }
    PositiveProduct(m, m, m * m);
  }

  lemma OtherSquare(n: real, m: real, zz: real, xx: real, mm: real)
    requires mm > 0.0 && xx == zz * mm && n * xx == mm
    ensures n * zz == 1.0
  {
    assert (n * zz) * mm == n * xx;
    CancelFactor(mm, n * zz, 1.0);
    CancelFactor(mm, 1.0, n * zz);
  }

  /** A square compares as the absolute value does. */
  lemma BandIff(z: real, threshold: real, zz: real, tt: real)
    requires threshold >= 0.0 && zz == z * z && tt == threshold * threshold
    ensures Abs(z) > threshold <==> zz > tt
  {
    if Abs(z) <= threshold { SquaresGrow(Abs(z), threshold); }
    if zz <= tt { SquareOrder(z, threshold); }
  }

  /**
   On the outlier window that the baseline summarises, and with a threshold of at least 1, the
   anomalies are the outlier alone, or nothing: as (n - 1)^2 exceeds n times the squared threshold.
   */
  lemma OutlierIsTheAnomaly(a: real, b: real, n: nat, v: Vector, stdev: real, threshold: real)
    requires n > 1 && a != b && v == Repeat(a, n - 1) + [b] && IsSampleDeviation(v, stdev) && threshold >= 1.0
    ensures var s := GetStats(v, stdev);
            s.stdev > 0.0 &&
            AnomaliesIn(v, s, threshold, n) ==
            if (n - 1) as real * (n - 1) as real > n as real * (threshold * threshold)
            then [AnomalyAt(v, n - 1, s)] else []
  {
    var za, zb, loud := OutlierBands(a, b, n, v, stdev, threshold);
    AnomaliesOfOutlier(a, v, GetStats(v, stdev), threshold, n, za, zb, loud);
  }

  lemma OutlierBands(a: real, b: real, n: nat, v: Vector, stdev: real, threshold: real)
    returns (za: real, zb: real, loud: bool)
    requires n > 1 && a != b && v == Repeat(a, n - 1) + [b] && IsSampleDeviation(v, stdev) && threshold >= 1.0
    ensures stdev > 0.0 && za == (a - Mean(v)) / stdev && zb == (b - Mean(v)) / stdev
    ensures Abs(za) <= threshold && (Abs(zb) > threshold <==> loud)
    ensures (n - 1) as real * (n - 1) as real > n as real * (threshold * threshold) <==> loud
  {
    var m := (n - 1) as real;
    var e, x := OutlierDeviations(a, b, n, v, m);
    za, zb, loud := BandsOfRatios(n as real, m, e, x, stdev, threshold);
  }

  lemma BandsOfRatios(n: real, m: real, e: real, x: real, stdev: real, threshold: real)
    returns (za: real, zb: real, loud: bool)
    requires n == m + 1.0 && m > 0.0 && e != 0.0 && x == -(m * e) && threshold >= 1.0
    requires stdev >= 0.0 && stdev * stdev * m == m * (e * e) + x * x
    ensures stdev > 0.0 && za == e / stdev && zb == x / stdev
    ensures Abs(za) <= threshold && (Abs(zb) > threshold <==> loud)
    ensures m * m > n * (threshold * threshold) <==> loud
  {
    za, zb := OutlierRatios(n, m, e, x, stdev);
    loud := BandOfSquares(za, zb, n, m, threshold);
  }

  lemma BandOfSquares(za: real, zb: real, n: real, m: real, threshold: real) returns (loud: bool)
    requires n > 1.0 && threshold >= 1.0 && n * (zb * zb) == m * m && n * (za * za) == 1.0
    ensures Abs(za) <= threshold
    ensures Abs(zb) > threshold <==> loud
    ensures m * m > n * (threshold * threshold) <==> loud
  {
    loud := Abs(zb) > threshold;
    var tt, aa, bb := threshold * threshold, za * za, zb * zb;
    SquaresGrow(1.0, threshold);
    ScaleUp(1.0, tt, n);
    ScaleIff(aa, tt, n);
    ScaleIff(bb, tt, n);
    BandIff(za, threshold, aa, tt);
    BandIff(zb, threshold, bb, tt);
  }

  lemma AnomaliesOfOutlier(
    a: real, v: Vector, s: Stats, threshold: real, n: nat, za: real, zb: real, loud: bool)
    requires n > 0 && |v| == n && (forall i :: 0 <= i < n - 1 ==> v[i] == a) && s.stdev > 0.0
    requires za == (a - s.mean) / s.stdev && zb == (v[n - 1] - s.mean) / s.stdev
    requires Abs(za) <= threshold && (Abs(zb) > threshold <==> loud)
    ensures AnomaliesIn(v, s, threshold, n) == if loud then [AnomalyAt(v, n - 1, s)] else []
  {
    QuietBefore(a, v, s, threshold, n - 1);
  }

  lemma ScaleIff(x: real, y: real, t: real)
    requires t > 0.0
    ensures x > y <==> t * x > t * y
  {
    if x > y { PositiveProduct(x - y, t, t * x - t * y); }
    if x < y { PositiveProduct(y - x, t, t * y - t * x); }
  }

  lemma {:induction false} QuietBefore(a: real, v: Vector, s: Stats, threshold: real, n: nat)
    requires n <= |v| && s.stdev > 0.0 && forall i :: 0 <= i < n ==> v[i] == a
    requires Abs((a - s.mean) / s.stdev) <= threshold
    ensures AnomaliesIn(v, s, threshold, n) == []
  {
    if n > 0 {
      QuietBefore(a, v, s, threshold, n - 1);
    }
  }

  /** `a` records the value at its index, the stored mean, and how many deviations these are apart. */
  ghost predicate IsAnomaly(a: Anomaly, v: Vector, s: Stats, threshold: real)
    requires s.stdev > 0.0
  {
    && a.index < |v| && a.actual == v[a.index] && a.expected == s.mean
    && a.zScore == (v[a.index] - s.mean) / s.stdev && Abs(a.zScore) > threshold
  }

  /** Exactly the out-of-band indices are listed, in increasing order, each with its own score. */
  lemma {:induction false} AnomaliesAreExact(v: Vector, s: Stats, threshold: real, n: nat)
    requires n <= |v| && s.stdev > 0.0
    ensures var r := AnomaliesIn(v, s, threshold, n);
            && (forall a :: a in r ==> a.index < n && IsAnomaly(a, v, s, threshold))
            && (forall j, k :: 0 <= j < k < |r| ==> r[j].index < r[k].index)
            && (forall i :: 0 <= i < n && Abs((v[i] - s.mean) / s.stdev) > threshold ==>
                  exists a :: a in r && a.index == i)
  {
    if n > 0 {
      AnomaliesAreExact(v, s, threshold, n - 1);
    }
  }

  /** c copies of `unit`, added up. */
  ghost function Copies(c: nat, unit: real): real {
    if c == 0 then 0.0 else Copies(c - 1, unit) + unit
  }

  lemma {:induction false} CopiesIsProduct(c: nat, unit: real)
    ensures Copies(c, unit) == c as real * unit
  {
    if c > 0 {
      CopiesIsProduct(c - 1, unit);
    }
  }

  function ZScores(d: Vector, stdev: real): Vector {
    seq(|d|, i requires 0 <= i < |d| => ZScore(d[i], 0.0, stdev))
  }

  ghost function CountOutside(z: Vector, threshold: real, n: nat): nat
    requires n <= |z|
  {
    if n == 0 then 0 else CountOutside(z, threshold, n - 1) + if Abs(z[n - 1]) > threshold then 1 else 0
  }

  lemma {:induction false} AnomaliesAreCounted(v: Vector, s: Stats, threshold: real, n: nat)
    requires n <= |v| && s.stdev > 0.0
    ensures |AnomaliesIn(v, s, threshold, n)|
         == CountOutside(ZScores(Deviations(v, s.mean), s.stdev), threshold, n)
  {
    if n > 0 {
      AnomaliesAreCounted(v, s, threshold, n - 1);
    }
  }

  /** Each value out of band contributes at least `unit` to the sum of squares. */
  lemma {:induction false} CarrySquares(z: Vector, d: Vector, threshold: real, n: nat, unit: real)
    requires n <= |z| == |d|
    requires forall i :: 0 <= i < n && Abs(z[i]) > threshold ==> unit <= d[i] * d[i]
    ensures Copies(CountOutside(z, threshold, n), unit) <= SumSquares(d[..n])
  {
    if n > 0 {
      CarrySquares(z, d, threshold, n - 1, unit);
      SumSquaresPrefix(d, n);
      SquareIsNonnegative(d[n - 1]);
    }
  }

  lemma SumSquaresPrefix(d: Vector, n: nat)
    requires 0 < n <= |d|
    ensures SumSquares(d[..n]) == SumSquares(d[..n - 1]) + d[n - 1] * d[n - 1]
  {
    assert d[..n][..n - 1] == d[..n - 1];
  }

  lemma OutOfBand(x: real, stdev: real, threshold: real, unit: real, square: real)
    requires stdev > 0.0 && threshold > 0.0 && Abs(x / stdev) > threshold
    requires unit == threshold * threshold * (stdev * stdev) && square == x * x
    ensures unit <= square
  {
    var zz, ss, xx := ZScoreSquares(x, stdev);
    SquaresGrow(threshold, Abs(x / stdev));
    ScaleUp(threshold * threshold, zz, ss);
  }

  lemma ScaleUp(x: real, y: real, t: real)
    requires x <= y && t > 0.0
    ensures x * t <= y * t
  {}

  lemma CancelScale(c: real, tt: real, ss: real, m: real, unit: real, total: real)
    requires ss > 0.0 && unit == tt * ss && total == ss * m && c * unit <= total
    ensures c * tt <= m
  {
    assert c * unit == (c * tt) * ss;
    CancelFactor(ss, c * tt, m);
  }

  lemma OutsideReachesUnit(d: Vector, stdev: real, threshold: real, unit: real)
    requires stdev > 0.0 && threshold > 0.0 && unit == threshold * threshold * (stdev * stdev)
    ensures forall i :: 0 <= i < |d| && Abs(ZScores(d, stdev)[i]) > threshold ==> unit <= d[i] * d[i]
  {
    forall i | 0 <= i < |d| && Abs(ZScores(d, stdev)[i]) > threshold ensures unit <= d[i] * d[i] {
      OutOfBand(d[i], stdev, threshold, unit, d[i] * d[i]);
    }
  }

  /**
   Chebyshev's bound: on the very history that the baseline summarises, the number c of
   anomalies satisfies c * threshold^2 <= n - 1.
   */
  lemma Chebyshev(v: Vector, stdev: real, threshold: real)
    requires v != [] && IsSampleDeviation(v, stdev) && threshold > 0.0
    ensures |AnomaliesIn(v, GetStats(v, stdev), threshold, |v|)| as real * (threshold * threshold) <= (|v| - 1) as real
  {
    var s := GetStats(v, stdev);
    if s.stdev > 0.0 {
      AnomaliesAreCounted(v, s, threshold, |v|);
      var d := Deviations(v, s.mean);
      var c, tt := CountIsBounded(d, stdev, threshold, (|v| - 1) as real, SumSquares(d));
    }
  }

  lemma CountIsBounded(d: Vector, stdev: real, threshold: real, m: real, total: real) returns (c: nat, tt: real)
    requires stdev > 0.0 && threshold > 0.0 && stdev * stdev * m == total == SumSquares(d)
    ensures c == CountOutside(ZScores(d, stdev), threshold, |d|) && tt == threshold * threshold
    ensures c as real * tt <= m
  {
    var ss, unit: real;
    tt, ss, unit := UnitOf(d, stdev, threshold, m, total);
    c := CarriedBy(ZScores(d, stdev), d, threshold, unit);
    CancelScale(c as real, tt, ss, m, unit, total);
  }

  lemma UnitOf(d: Vector, stdev: real, threshold: real, m: real, total: real) returns (tt: real, ss: real, unit: real)
    requires stdev > 0.0 && threshold > 0.0 && stdev * stdev * m == total
    ensures tt == threshold * threshold && ss > 0.0 && ss * m == total && unit == tt * ss
    ensures forall i :: 0 <= i < |d| && Abs(ZScores(d, stdev)[i]) > threshold ==> unit <= d[i] * d[i]
  {
    tt, ss := threshold * threshold, stdev * stdev;
    unit := tt * ss;
    SquareIsPositive(stdev, ss);
    OutsideReachesUnit(d, stdev, threshold, unit);
  }

  lemma CarriedBy(z: Vector, d: Vector, threshold: real, unit: real) returns (c: nat)
    requires |z| == |d|
    requires forall i :: 0 <= i < |d| && Abs(z[i]) > threshold ==> unit <= d[i] * d[i]
    ensures c == CountOutside(z, threshold, |d|) && c as real * unit <= SumSquares(d)
  {
    c := CountOutside(z, threshold, |d|);
    CarrySquares(z, d, threshold, |d|, unit);
    assert d[..|d|] == d;
    CopiesIsProduct(c, unit);
  }
}
