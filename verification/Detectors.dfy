/**
 The two online detectors (app/anomaly_detection/detectors.py:80-96, 207-254, 306-349).

 Scores are compared squared, so no square root is taken: `|deviation / spread| >= threshold` is
 `deviation^2 >= threshold^2 * variance` for a positive threshold, and always true for any other.
 */
module Detectors {
  import opened Options
  import opened Averages
  import opened Ewma

  datatype Config = Config(threshold: real, window: int, minHistory: int, alpha: real, minObserved: real)

  /** A score: a deviation in units of the square root of a variance, or a number. */
  datatype Score = Scaled(deviation: real, variance: real) | Plain(value: real)

  datatype Severity = Info | Low | Medium | High | Critical

  datatype Anomaly = Anomaly(index: nat, observed: real, expected: real, up: bool, score: Score, severity: Severity)

  predicate ReportsDrops(metric: string) {
    metric == "requests" || metric == "bytes" || metric == "unique_users"
  }

  lemma DropMetrics(metric: string)
    ensures ReportsDrops(metric) <==> metric in {"requests", "bytes", "unique_users"}
  {
  }

  predicate Exceeds(threshold: real, deviation: real, variance: real) {
    threshold <= 0.0 || Square(deviation) >= Square(threshold) * variance
  }

  function Magnitude(x: real): real {
    if x >= 0.0 then x else -x
  }

  /** `abs(score) >= bound`. */
  predicate AtLeast(score: Score, bound: real) {
    match score
    case Scaled(deviation, variance) => Exceeds(bound, deviation, variance)
    case Plain(value) => Magnitude(value) >= bound
  }

  /** `observed / expected >= bound`, where a baseline that is not positive stands for a ratio of 2, or 1. */
  predicate RatioAtLeast(observed: real, expected: real, bound: real) {
    if expected > 0.0 then observed / expected >= bound else (if observed > 0.0 then 2.0 else 1.0) >= bound
  }

  function SeverityOf(observed: real, expected: real, score: Score): Severity {
    if AtLeast(score, 6.0) && RatioAtLeast(observed, expected, 5.0) then Critical
    else if AtLeast(score, 4.5) && RatioAtLeast(observed, expected, 3.0) then High
    else if AtLeast(score, 3.0) && RatioAtLeast(observed, expected, 1.75) then Medium
    else if AtLeast(score, 2.5) then Low
    else Info
  }

  function Built(index: nat, observed: real, expected: real, up: bool, score: Score): Anomaly {
    Anomaly(index, observed, expected, up, score, SeverityOf(observed, expected, score))
  }

  // ---------- What each detector says about one point ----------

  /** On a flat baseline the trailing score is one more than the threshold, whatever the move. */
  function TrailingScore(c: Config, deviation: real, variance: real): Score {
    if variance <= 0.0 then Plain(c.threshold + 1.0) else Scaled(deviation, variance)
  }

  /** On a constant series the exponential score is one more than the threshold with the sign of the move. */
  function EwmaScore(c: Config, deviation: real, variance: real): Score {
    if variance > 0.0 then Scaled(deviation, variance)
    else if deviation > 0.0 then Plain(Magnitude(c.threshold + 1.0))
    else if deviation < 0.0 then Plain(-Magnitude(c.threshold + 1.0))
    else Plain(0.0)
  }

  /** `drops` says whether the metric reports downward moves. */
  function TrailingVerdict(c: Config, drops: bool, index: nat, observed: real, expected: real,
        variance: real): Option<Anomaly> {
    var up, score := observed > expected, TrailingScore(c, observed - expected, variance);
    var flagged := if variance <= 0.0 then observed != expected else AtLeast(score, c.threshold);
    if flagged && (if up then observed >= c.minObserved else drops)
        then Some(Built(index, observed, expected, up, score))
    else None
  }

  function EwmaVerdict(
      c: Config, drops: bool, index: nat, observed: real, level: real, variance: real): Option<Anomaly>
  {
    var deviation, score := observed - level, EwmaScore(c, observed - level, variance);
    if AtLeast(score, c.threshold) && (observed >= c.minObserved || deviation < 0.0) && (deviation > 0.0 || drops)
    then Some(Built(index, observed, level, deviation > 0.0, score)) else None
  }

  function Trailing(values: seq<real>, drops: bool, c: Config, i: nat): Option<Anomaly>
    requires 2 <= c.window <= i < |values|
  {
    TrailingVerdict(c, drops, i, values[i], Mean(values, i - c.window, i), Variance(values, i - c.window, i))
  }

  function Weighted(values: seq<real>, drops: bool, c: Config, i: nat): Option<Anomaly>
    requires 1 <= i < |values|
  {
    EwmaVerdict(c, drops, i, values[i], Level(values, c.alpha, i), Variation(values, c.alpha, i))
  }

  function Listed(verdict: Option<Anomaly>): seq<Anomaly> {
    match verdict case Some(a) => [a] case None => []
  }

  /** The anomalies among the first `n` values. */
  function TrailingAnomalies(values: seq<real>, drops: bool, c: Config, n: nat): seq<Anomaly>
    requires 2 <= c.window && n <= |values|
  {
    if n <= c.window then [] else TrailingAnomalies(values, drops, c, n - 1) + Listed(Trailing(values, drops, c, n - 1))
  }

  function EwmaAnomalies(values: seq<real>, drops: bool, c: Config, n: nat): seq<Anomaly>
    requires n <= |values|
  {
    if n <= 1 then [] else EwmaAnomalies(values, drops, c, n - 1) + Listed(Weighted(values, drops, c, n - 1))
  }

  // ---------- The detectors ----------

  /** The square root fails on a negative variance. */
  ghost predicate NegativeVariance(values: seq<real>, alpha: real) {
    exists k :: 1 <= k < |values| && Variation(values, alpha, k) < 0.0
  }

  predicate LongEnough(values: seq<real>, c: Config) {
    |values| >= c.minHistory && |values| >= c.window
  }

  method DetectTrailing(values: seq<real>, metric: string, c: Config) returns (r: Attempt<seq<Anomaly>>)
    ensures r == if !LongEnough(values, c) then Returns([])
                 else if c.window < 2 then Raises
                 else Returns(TrailingAnomalies(values, metric in {"requests", "bytes", "unique_users"}, c, |values|))
  {
    DropMetrics(metric);
    hide ReportsDrops, Mean, Variance, Exceeds, SeverityOf;
    if |values| < (if c.minHistory >= c.window then c.minHistory else c.window) { return Returns([]); }
    var averages := MovingAverage(values, c.window);
    if averages.Raises? { return Raises; }
    var variances := RollingVariance(values, c.window);
    if variances.Raises? { return Raises; }
    var drops := ReportsDrops(metric);
    var anomalies := [];
    for index := c.window to |values|
      invariant anomalies == TrailingAnomalies(values, drops, c, index)
    {
      // the baseline excludes the current point
      var expected, variance, observed := averages.value[index - 1], variances.value[index - 1], values[index];
      assert expected == Mean(values, index - c.window, index) && variance == Variance(values, index - c.window, index);
      var score: Score;
      if variance <= 0.0 {
        if observed == expected { continue; }
        if observed > expected && observed < c.minObserved { continue; }
        score := Plain(c.threshold + 1.0);
      } else {
        score := Scaled(observed - expected, variance);
      }
      if !AtLeast(score, c.threshold) { continue; }
      var up := observed > expected;
      if !up && !drops { continue; }
      if up && observed < c.minObserved { continue; }
      anomalies := anomalies + [Built(index, observed, expected, up, score)];
    }
    return Returns(anomalies);
  }

  lemma LevelStart(values: seq<real>, alpha: real)
    ensures values != [] ==> Level(values, alpha, 1) == values[0] && Variation(values, alpha, 1) == 0.0
  {
  }

  lemma VariationNext(values: seq<real>, alpha: real, n: nat, level: real, variance: real)
    requires 1 <= n < |values| && level == Level(values, alpha, n) && variance == Variation(values, alpha, n)
    ensures Level(values, alpha, n + 1) == NextLevel(alpha, level, values[n] - level)
    ensures Variation(values, alpha, n + 1) == NextVariation(alpha, variance, values[n] - level)
  {
    hide NextLevel, NextVariation;
  }

  method DetectEwma(values: seq<real>, metric: string, c: Config) returns (r: Attempt<seq<Anomaly>>)
    ensures r == if |values| < c.minHistory then Returns([])
                 else if values == [] || NegativeVariance(values, c.alpha) then Raises
                 else Returns(EwmaAnomalies(values, metric in {"requests", "bytes", "unique_users"}, c, |values|))
  {
    DropMetrics(metric);
    hide ReportsDrops, AtLeast, EwmaScore, SeverityOf, Square, Variation, Level, NextLevel, NextVariation;
    LevelStart(values, c.alpha);
    if |values| < c.minHistory { return Returns([]); }
    if values == [] { return Raises; }
    var drops := ReportsDrops(metric);
    var level, variance := values[0], 0.0;
    var anomalies := [];
    for index := 1 to |values|
      invariant level == Level(values, c.alpha, index) && variance == Variation(values, c.alpha, index)
      invariant forall k :: 1 <= k < index ==> Variation(values, c.alpha, k) >= 0.0
      invariant anomalies == EwmaAnomalies(values, drops, c, index)
    {
      var observed := values[index];
      var deviation := observed - level;
      if variance < 0.0 { return Raises; }
      var score := EwmaScore(c, deviation, variance);
      if AtLeast(score, c.threshold) && (observed >= c.minObserved || deviation < 0.0) {
        var up := deviation > 0.0;
        if up || drops { anomalies := anomalies + [Built(index, observed, level, up, score)]; }
      }
      VariationNext(values, c.alpha, index, level, variance);
      // the current point does not mask itself
      variance := NextVariation(c.alpha, variance, deviation);
      level := NextLevel(c.alpha, level, deviation);
    }
    return Returns(anomalies);
  }

  // ---------- When the square root fails ----------

  lemma OutsideFactor(alpha: real, square: real)
    requires !(0.0 <= alpha <= 1.0) && square > 0.0
    ensures (1.0 - alpha) * (0.0 + alpha * square) < 0.0
  {
    if alpha < 0.0 {
      ProductPositive(1.0 - alpha, 0.0 - alpha, (1.0 - alpha) * (0.0 - alpha));
      ProductPositive((1.0 - alpha) * (0.0 - alpha), square, ((1.0 - alpha) * (0.0 - alpha)) * square);
    } else {
      ProductPositive(alpha - 1.0, alpha, (alpha - 1.0) * alpha);
      ProductPositive((alpha - 1.0) * alpha, square, ((alpha - 1.0) * alpha) * square);
    }
  }

  /** The first departure from a constant start makes the variance negative, for a factor outside [0, 1]. */
  lemma FirstDeparture(values: seq<real>, alpha: real, i: nat)
    requires 1 <= i < |values| && values[i] != values[0] && !(0.0 <= alpha <= 1.0)
    requires forall k :: 0 <= k < i ==> values[k] == values[0]
    ensures Variation(values, alpha, i + 1) < 0.0
  {
    ConstantStretch(values, alpha, i);
    SquareSign(values[i] - values[0]);
    OutsideFactor(alpha, Square(values[i] - values[0]));
  }

  lemma {:induction false} FirstDifferent(values: seq<real>, i: nat) returns (first: nat)
    requires 1 <= i < |values| && values[i] != values[0]
    ensures 1 <= first <= i && values[first] != values[0] && forall k :: 0 <= k < first ==> values[k] == values[0]
    decreases i
  {
    if k :| 1 <= k < i && values[k] != values[0] {
      first := FirstDifferent(values, k);
    } else {
      first := i;
    }
  }

  /** The detector fails exactly when the factor is outside [0, 1] and the series moves before its last point. */
  lemma NegativeVarianceExactly(values: seq<real>, alpha: real)
    ensures NegativeVariance(values, alpha) <==>
              !(0.0 <= alpha <= 1.0) && exists i :: 1 <= i < |values| - 1 && values[i] != values[0]
  {
    if NegativeVariance(values, alpha) {
      var k :| 1 <= k < |values| && Variation(values, alpha, k) < 0.0;
      if 0.0 <= alpha <= 1.0 { VariationNonNegative(values, alpha, k); }
      if forall i :: 1 <= i < |values| - 1 ==> values[i] == values[0] { ConstantStretch(values, alpha, k); }
    }
    if i :| !(0.0 <= alpha <= 1.0) && 1 <= i < |values| - 1 && values[i] != values[0] {
      var first := FirstDifferent(values, i);
      FirstDeparture(values, alpha, first);
    }
  }

  // ---------- What is reported ----------

  lemma {:induction false} TrailingReportsExactly(values: seq<real>, drops: bool, c: Config, n: nat, a: Anomaly)
    requires 2 <= c.window && n <= |values|
    ensures a in TrailingAnomalies(values, drops, c, n) <==>
            c.window <= a.index < n && Trailing(values, drops, c, a.index) == Some(a)
    decreases n
  {
    hide Mean, Variance, Exceeds;
    if n > c.window { TrailingReportsExactly(values, drops, c, n - 1, a); }
  }

  lemma {:induction false} EwmaReportsExactly(values: seq<real>, drops: bool, c: Config, n: nat, a: Anomaly)
    requires n <= |values|
    ensures a in EwmaAnomalies(values, drops, c, n) <==>
            1 <= a.index < n && Weighted(values, drops, c, a.index) == Some(a)
    decreases n
  {
    hide Level, Variation, Exceeds;
    if n > 1 { EwmaReportsExactly(values, drops, c, n - 1, a); }
  }

  // ---------- A lower threshold reports more ----------

  lemma SquareMonotone(low: real, high: real)
    requires 0.0 < low <= high
    ensures Square(low) <= Square(high)
  {
    ProductNonNegative(high - low, high + low);
    assert (high - low) * (high + low) == high * high - low * low;
  }

  lemma ScaledMonotone(low: real, high: real, scale: real)
    requires low <= high && scale >= 0.0
    ensures low * scale <= high * scale
  {
    ProductNonNegative(high - low, scale);
    assert (high - low) * scale == high * scale - low * scale;
  }

  lemma ExceedsMonotone(low: real, high: real, deviation: real, variance: real)
    requires low <= high && variance >= 0.0 && Exceeds(high, deviation, variance)
    ensures Exceeds(low, deviation, variance)
  {
    hide Square;
    if low > 0.0 {
      SquareMonotone(low, high);
      ScaledMonotone(Square(low), Square(high), variance);
    }
  }

  /** Both report the same move; only the score of a flat baseline, and with it the severity, follows the threshold. */
  predicate SameMove(a: Anomaly, b: Anomaly) {
    && a.index == b.index && a.observed == b.observed && a.expected == b.expected && a.up == b.up
    && (a.score.Scaled? ==> a == b)
  }

  predicate Keeps(a: Option<Anomaly>, b: Option<Anomaly>) {
    a.Some? ==> b.Some? && SameMove(a.value, b.value)
  }

  lemma VerdictsMonotone(c: Config, low: real, drops: bool, index: nat, observed: real, expected: real, variance: real)
    requires low <= c.threshold
    ensures var looser := c.(threshold := low);
            && Keeps(TrailingVerdict(c, drops, index, observed, expected, variance),
                 TrailingVerdict(looser, drops, index, observed, expected, variance))
            && Keeps(EwmaVerdict(c, drops, index, observed, expected, variance),
                 EwmaVerdict(looser, drops, index, observed, expected, variance))
  {
    hide SeverityOf;
    var deviation := observed - expected;
    if variance > 0.0 && Exceeds(c.threshold, deviation, variance) {
      ExceedsMonotone(low, c.threshold, deviation, variance);
    }
    hide Exceeds;
  }

  /** Lowering the threshold keeps every move either detector reported. */
  lemma LowerThresholdReportsMore(values: seq<real>, drops: bool, c: Config, low: real, n: nat, a: Anomaly)
    requires n <= |values| && low <= c.threshold
    ensures 2 <= c.window && a in TrailingAnomalies(values, drops, c, n) ==>
              exists b :: b in TrailingAnomalies(values, drops, c.(threshold := low), n) && SameMove(a, b)
    ensures a in EwmaAnomalies(values, drops, c, n) ==>
              exists b :: b in EwmaAnomalies(values, drops, c.(threshold := low), n) && SameMove(a, b)
  {
    hide TrailingVerdict, EwmaVerdict, TrailingAnomalies, EwmaAnomalies, Mean, Variance, Level, Variation;
    var looser := c.(threshold := low);
    var i := a.index;
    if 2 <= c.window && a in TrailingAnomalies(values, drops, c, n) {
      TrailingReportsExactly(values, drops, c, n, a);
      VerdictsMonotone(c, low, drops, i, values[i], Mean(values, i - c.window, i), Variance(values, i - c.window, i));
      var b := Trailing(values, drops, looser, i).value;
      TrailingReportsExactly(values, drops, looser, n, b);
    }
    if a in EwmaAnomalies(values, drops, c, n) {
      EwmaReportsExactly(values, drops, c, n, a);
      VerdictsMonotone(c, low, drops, i, values[i], Level(values, c.alpha, i), Variation(values, c.alpha, i));
      var b := Weighted(values, drops, looser, i).value;
      EwmaReportsExactly(values, drops, looser, n, b);
    }
  }

  // ---------- Causality ----------

  /** The anomalies at indices below `n`. */
  function Before(anomalies: seq<Anomaly>, n: nat): seq<Anomaly> {
    if anomalies == [] then []
    else
      var last := anomalies[|anomalies| - 1];
      Before(anomalies[..|anomalies| - 1], n) + if last.index < n then [last] else []
  }

  lemma BeforeStep(anomalies: seq<Anomaly>, verdict: Option<Anomaly>, n: nat)
    ensures Before(anomalies + Listed(verdict), n) ==
              if verdict.Some? && verdict.value.index < n then Before(anomalies, n) + [verdict.value]
                  else Before(anomalies, n)
  {
    match verdict
    case Some(a) => assert (anomalies + [a])[..|anomalies|] == anomalies;
    case None => assert anomalies + [] == anomalies;
  }

  lemma VerdictIndex(values: seq<real>, drops: bool, c: Config, i: nat)
    requires i < |values|
    ensures 2 <= c.window <= i ==>
            (Trailing(values, drops, c, i).Some? ==> Trailing(values, drops, c, i).value.index == i)
    ensures 1 <= i ==> (Weighted(values, drops, c, i).Some? ==> Weighted(values, drops, c, i).value.index == i)
  {
    hide Mean, Variance, Exceeds, Level, Variation;
  }

  lemma {:induction false} TrailingBefore(values: seq<real>, drops: bool, c: Config, m: nat, n: nat)
    requires 2 <= c.window && m <= |values| && n <= m
    ensures Before(TrailingAnomalies(values, drops, c, m), n) == TrailingAnomalies(values, drops, c, n)
    decreases m
  {
    hide Trailing, Before;
    if m <= c.window {
      NothingBefore(n);
    } else {
      VerdictIndex(values, drops, c, m - 1);
      var verdict := Trailing(values, drops, c, m - 1);
      BeforeStep(TrailingAnomalies(values, drops, c, m - 1), verdict, n);
      TrailingBefore(values, drops, c, m - 1, if n < m then n else m - 1);
      if n == m { AllBefore(TrailingAnomalies(values, drops, c, m - 1), m - 1, m); }
    }
  }

  lemma {:induction false} EwmaBefore(values: seq<real>, drops: bool, c: Config, m: nat, n: nat)
    requires m <= |values| && n <= m
    ensures Before(EwmaAnomalies(values, drops, c, m), n) == EwmaAnomalies(values, drops, c, n)
    decreases m
  {
    hide Weighted, Before;
    if m <= 1 {
      NothingBefore(n);
    } else {
      VerdictIndex(values, drops, c, m - 1);
      var verdict := Weighted(values, drops, c, m - 1);
      BeforeStep(EwmaAnomalies(values, drops, c, m - 1), verdict, n);
      EwmaBefore(values, drops, c, m - 1, if n < m then n else m - 1);
      if n == m { AllBefore(EwmaAnomalies(values, drops, c, m - 1), m - 1, m); }
    }
  }

  lemma NothingBefore(n: nat)
    ensures Before([], n) == []
  {
  }

  lemma {:induction false} AllBefore(anomalies: seq<Anomaly>, k: nat, n: nat)
    requires Before(anomalies, k) == anomalies && k <= n
    ensures Before(anomalies, n) == anomalies
  {
    if anomalies != [] {
      var rest := anomalies[..|anomalies| - 1];
      BeforeShrinks(rest, k);
      assert Before(rest, k) == rest;
      AllBefore(rest, k, n);
    }
  }

  lemma {:induction false} BeforeShrinks(anomalies: seq<Anomaly>, n: nat)
    ensures |Before(anomalies, n)| <= |anomalies|
  {
    if anomalies != [] { BeforeShrinks(anomalies[..|anomalies| - 1], n); }
  }

  /** What is said about point `i` depends on the points up to `i` only, and its baseline not on point `i` itself. */
  lemma VerdictsAreCausal(a: seq<real>, b: seq<real>, drops: bool, c: Config, i: nat)
    requires i < |a| && i < |b| && (forall k :: 0 <= k < i ==> a[k] == b[k])
    ensures i >= 1 ==>
            Level(a, c.alpha, i) == Level(b, c.alpha, i) && Variation(a, c.alpha, i) == Variation(b, c.alpha, i)
    ensures 2 <= c.window <= i ==>
              && Mean(a, i - c.window, i) == Mean(b, i - c.window, i)
              && Variance(a, i - c.window, i) == Variance(b, i - c.window, i)
    ensures a[i] == b[i] && i >= 1 ==> Weighted(a, drops, c, i) == Weighted(b, drops, c, i)
    ensures a[i] == b[i] && 2 <= c.window <= i ==> Trailing(a, drops, c, i) == Trailing(b, drops, c, i)
  {
    if i >= 1 { Causal(a, b, c.alpha, i); }
    if 2 <= c.window <= i {
      SumIsLocal(a, b, i - c.window, i);
      SquaresAreLocal(a, b, i - c.window, i, Mean(a, i - c.window, i));
    }
  }

  lemma {:induction false} TrailingOfPrefix(prefix: seq<real>, values: seq<real>, drops: bool, c: Config, n: nat)
    requires 2 <= c.window && prefix <= values && n <= |prefix|
    ensures TrailingAnomalies(prefix, drops, c, n) == TrailingAnomalies(values, drops, c, n)
    decreases n
  {
    hide Mean, Variance, Exceeds, TrailingVerdict;
    if n > c.window {
      TrailingOfPrefix(prefix, values, drops, c, n - 1);
      VerdictsAreCausal(prefix, values, drops, c, n - 1);
    }
  }

  lemma {:induction false} EwmaOfPrefix(prefix: seq<real>, values: seq<real>, drops: bool, c: Config, n: nat)
    requires prefix <= values && n <= |prefix|
    ensures EwmaAnomalies(prefix, drops, c, n) == EwmaAnomalies(values, drops, c, n)
    decreases n
  {
    hide Level, Variation, Exceeds, EwmaVerdict;
    if n > 1 {
      EwmaOfPrefix(prefix, values, drops, c, n - 1);
      VerdictsAreCausal(prefix, values, drops, c, n - 1);
    }
  }

  /** On any prefix the trailing detector reports exactly the anomalies of the full series that lie in the prefix. */
  lemma TrailingIsCausal(prefix: seq<real>, values: seq<real>, drops: bool, c: Config)
    requires 2 <= c.window && prefix <= values
    ensures TrailingAnomalies(prefix, drops, c, |prefix|)
            == Before(TrailingAnomalies(values, drops, c, |values|), |prefix|)
  {
    TrailingOfPrefix(prefix, values, drops, c, |prefix|);
    TrailingBefore(values, drops, c, |values|, |prefix|);
  }

  /** On any prefix the exponential detector reports exactly the anomalies of the full series that lie in the prefix. */
  lemma EwmaIsCausal(prefix: seq<real>, values: seq<real>, drops: bool, c: Config)
    requires prefix <= values
    ensures EwmaAnomalies(prefix, drops, c, |prefix|) == Before(EwmaAnomalies(values, drops, c, |values|), |prefix|)
  {
    EwmaOfPrefix(prefix, values, drops, c, |prefix|);
    EwmaBefore(values, drops, c, |values|, |prefix|);
  }
}
