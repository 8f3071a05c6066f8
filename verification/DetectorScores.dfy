/**
 What the two online detectors report, read off the observed value, its baseline and the spread itself
 (app/anomaly_detection/detectors.py:80-96, 220-254, 319-344): `spread` is any root of the variance.
 */
module DetectorScores {
  import Options
  import opened Averages
  import opened Ewma
  import opened Detectors

  function Abs(x: real): real {
    if x < 0.0 then 0.0 - x else x
  }

  lemma AbsSign(x: real)
    ensures Abs(x) >= 0.0
  {
  }

  // ---------- Comparing squares is comparing scores ----------

  lemma ProductMonotone(low: real, high: real, scale: real)
    requires low < high && scale > 0.0
    ensures low * scale < high * scale
  {
    ProductPositive(high - low, scale, (high - low) * scale);
  }

  lemma SquaresAscend(low: real, high: real)
    requires 0.0 <= low < high
    ensures Square(low) < Square(high)
  {
    ProductPositive(high - low, high + low, (high - low) * (high + low));
    assert (high - low) * (high + low) == high * high - low * low;
  }

  lemma SquaresInOrder(x: real, y: real)
    requires x >= 0.0 && y >= 0.0
    ensures Square(x) >= Square(y) <==> x >= y
  {
    hide Square;
    if x < y { SquaresAscend(x, y); } else if y < x { SquaresAscend(y, x); }
  }

  lemma QuotientInOrder(x: real, spread: real, bound: real)
    requires spread > 0.0
    ensures x / spread >= bound <==> x >= bound * spread
  {
    var quotient := x / spread;
    assert quotient * spread == x;
    if quotient < bound {
      ProductMonotone(quotient, bound, spread);
    } else if bound < quotient {
      ProductMonotone(bound, quotient, spread);
    }
  }

  lemma QuotientSize(x: real, spread: real)
    requires spread > 0.0
    ensures Abs(x / spread) == Abs(x) / spread
  {
    assert (0.0 - x) / spread == 0.0 - x / spread;
    QuotientInOrder(x, spread, 0.0);
  }

  lemma SquareOfSize(x: real)
    ensures Square(x) == Square(Abs(x))
  {
  }

  lemma SquareOfProduct(x: real, y: real)
    ensures Square(x) * Square(y) == Square(x * y)
  {
    assert (x * y) * (x * y) == x * (y * (x * y)) == x * ((y * y) * x) == (x * x) * (y * y);
  }

  /** Squares decide whether the deviation is at least `bound` spreads. */
  lemma ExceedsMeans(bound: real, deviation: real, spread: real)
    requires spread > 0.0
    ensures Exceeds(bound, deviation, Square(spread)) <==> Abs(deviation / spread) >= bound
  {
    hide Square, Abs;
    QuotientSize(deviation, spread);
    QuotientInOrder(Abs(deviation), spread, bound);
    if bound > 0.0 {
      ProductPositive(bound, spread, bound * spread);
      AbsSign(deviation);
      SquaresInOrder(Abs(deviation), bound * spread);
      SquareOfSize(deviation);
      SquareOfProduct(bound, spread);
    } else {
      AbsSign(deviation / spread);
    }
  }

  // ---------- What is reported about one point ----------

  function Ratio(observed: real, expected: real): real {
    if expected > 0.0 then observed / expected else if observed > 0.0 then 2.0 else 1.0
  }

  /** A grade needs both a large score and a large ratio; only the lowest asks for the score alone. */
  predicate Grades(severity: Severity, size: real, ratio: real) {
    && (severity == Critical <==> size >= 6.0 && ratio >= 5.0)
    && (severity == Critical || severity == High <==> size >= 4.5 && ratio >= 3.0)
    && (severity == Critical || severity == High || severity == Medium <==> size >= 3.0 && ratio >= 1.75)
    && (severity == Info <==> size < 2.5)
  }

  /** The report names the point, its value, its baseline and its direction, and grades it. */
  ghost predicate Describes(a: Anomaly, index: nat, observed: real, expected: real, size: real) {
    && a.index == index && a.observed == observed && a.expected == expected
    && (a.up <==> observed > expected)
    && (forall bound :: AtLeast(a.score, bound) <==> size >= bound)
    && Grades(a.severity, size, Ratio(observed, expected))
  }

  /** The absolute score of a move by `deviation`, where a baseline without spread has no scale to measure against. */
  function Size(deviation: real, spread: real, flat: real): real
    requires spread >= 0.0
  {
    if spread > 0.0 then Abs(deviation / spread) else flat
  }

  lemma SizeMeans(score: Score, deviation: real, spread: real, flat: real, bound: real)
    requires spread >= 0.0
    requires score == if spread > 0.0 then Scaled(deviation, Square(spread)) else Plain(flat)
    ensures AtLeast(score, bound) <==> Size(deviation, spread, Abs(flat)) >= bound
  {
    hide Exceeds;
    if spread > 0.0 { ExceedsMeans(bound, deviation, spread); }
  }

  lemma BuiltDescribes(index: nat, observed: real, expected: real, up: bool, score: Score, spread: real, flat: real)
    requires spread >= 0.0 && up == (observed > expected)
    requires score == if spread > 0.0 then Scaled(observed - expected, Square(spread)) else Plain(flat)
    ensures Describes(Built(index, observed, expected, up, score), index, observed, expected,
                      Size(observed - expected, spread, Abs(flat)))
  {
    forall bound ensures AtLeast(score, bound) <==> Size(observed - expected, spread, Abs(flat)) >= bound {
      SizeMeans(score, observed - expected, spread, flat, bound);
    }
    hide AtLeast, Size;
  }

  lemma TrailingVerdictMeans(c: Config, drops: bool, index: nat, observed: real, expected: real, spread: real)
    requires spread >= 0.0
    ensures var verdict := TrailingVerdict(c, drops, index, observed, expected, Square(spread));
      && (verdict.Some? <==>
            && (if spread > 0.0 then Abs((observed - expected) / spread) >= c.threshold else observed != expected)
            && (if observed > expected then observed >= c.minObserved else drops))
      && (verdict.Some? ==>
            Describes(verdict.value, index, observed, expected,
                      Size(observed - expected, spread, Abs(c.threshold + 1.0))))
  {
    var deviation, flat := observed - expected, c.threshold + 1.0;
    SquareSign(spread);
    hide Square, AtLeast, Describes, Built;
    var score := TrailingScore(c, deviation, Square(spread));
    SizeMeans(score, deviation, spread, flat, c.threshold);
    BuiltDescribes(index, observed, expected, observed > expected, score, spread, flat);
  }

  lemma EwmaVerdictMeans(c: Config, drops: bool, index: nat, observed: real, level: real, spread: real)
    requires spread >= 0.0
    ensures var verdict := EwmaVerdict(c, drops, index, observed, level, Square(spread));
      && (verdict.Some? <==>
            && (if spread > 0.0 then Abs((observed - level) / spread) >= c.threshold
                else observed != level || c.threshold <= 0.0)
            && (observed >= c.minObserved || observed < level) && (observed > level || drops))
      && (verdict.Some? ==>
            Describes(verdict.value, index, observed, level,
                      Size(observed - level, spread, if observed == level then 0.0 else Abs(c.threshold + 1.0))))
  {
    var deviation := observed - level;
    var flat := if deviation > 0.0 then Magnitude(c.threshold + 1.0)
                else if deviation < 0.0 then -Magnitude(c.threshold + 1.0) else 0.0;
    SquareSign(spread);
    hide Square, AtLeast, Describes, Built;
    var score := EwmaScore(c, deviation, Square(spread));
    SizeMeans(score, deviation, spread, flat, c.threshold);
    BuiltDescribes(index, observed, level, observed > level, score, spread, flat);
  }

  // ---------- What is reported about a series ----------

  /**
   With `spread` the deviation of the window before it, point `i` is in the trailing report exactly when it is that
   many spreads away, or the window is flat and it moves at all, and the move is not suppressed; it is reported once.
   */
  lemma TrailingMeans(values: seq<real>, drops: bool, c: Config, n: nat, i: nat, spread: real)
    requires 2 <= c.window <= i < n <= |values|
    requires spread >= 0.0 && Square(spread) == Variance(values, i - c.window, i)
    ensures var expected, anomalies := Mean(values, i - c.window, i), TrailingAnomalies(values, drops, c, n);
      && ((exists a :: a in anomalies && a.index == i) <==>
            && (if spread > 0.0 then Abs((values[i] - expected) / spread) >= c.threshold else values[i] != expected)
            && (if values[i] > expected then values[i] >= c.minObserved else drops))
      && (forall a :: a in anomalies && a.index == i ==>
            Describes(a, i, values[i], expected, Size(values[i] - expected, spread, Abs(c.threshold + 1.0))))
  {
    hide Mean, Variance, TrailingAnomalies, TrailingVerdict, Describes, Size, Abs;
    var expected, verdict := Mean(values, i - c.window, i), Trailing(values, drops, c, i);
    TrailingVerdictMeans(c, drops, i, values[i], expected, spread);
    forall a: Anomaly | a.index == i
      ensures a in TrailingAnomalies(values, drops, c, n) <==> verdict == Options.Some(a)
    {
      TrailingReportsExactly(values, drops, c, n, a);
    }
    VerdictIndex(values, drops, c, i);
  }

  lemma EwmaMeans(values: seq<real>, drops: bool, c: Config, n: nat, i: nat, spread: real)
    requires 1 <= i < n <= |values|
    requires spread >= 0.0 && Square(spread) == Variation(values, c.alpha, i)
    ensures var level, anomalies := Level(values, c.alpha, i), EwmaAnomalies(values, drops, c, n);
      && ((exists a :: a in anomalies && a.index == i) <==>
            && (if spread > 0.0 then Abs((values[i] - level) / spread) >= c.threshold
                else values[i] != level || c.threshold <= 0.0)
            && (values[i] >= c.minObserved || values[i] < level) && (values[i] > level || drops))
      && (forall a :: a in anomalies && a.index == i ==>
            Describes(a, i, values[i], level,
                      Size(values[i] - level, spread, if values[i] == level then 0.0 else Abs(c.threshold + 1.0))))
  {
    hide Level, Variation, EwmaAnomalies, EwmaVerdict, Describes, Size, Abs;
    var level, verdict := Level(values, c.alpha, i), Weighted(values, drops, c, i);
    EwmaVerdictMeans(c, drops, i, values[i], level, spread);
    forall a: Anomaly | a.index == i
      ensures a in EwmaAnomalies(values, drops, c, n) <==> verdict == Options.Some(a)
    {
      EwmaReportsExactly(values, drops, c, n, a);
    }
    VerdictIndex(values, drops, c, i);
  }

  // ---------- One report a point ----------

  predicate Ascending(anomalies: seq<Anomaly>, n: nat) {
    && (forall k :: 0 <= k < |anomalies| ==> anomalies[k].index < n)
    && (forall j, k :: 0 <= j < k < |anomalies| ==> anomalies[j].index < anomalies[k].index)
  }

  /** Either report lists its points in order, and none twice. */
  lemma {:induction false} ReportsAscend(values: seq<real>, drops: bool, c: Config, n: nat)
    requires n <= |values|
    ensures 2 <= c.window ==> Ascending(TrailingAnomalies(values, drops, c, n), n)
    ensures Ascending(EwmaAnomalies(values, drops, c, n), n)
    decreases n
  {
    hide Trailing, Weighted;
    if n > 1 {
      ReportsAscend(values, drops, c, n - 1);
      VerdictIndex(values, drops, c, n - 1);
    }
  }
}
