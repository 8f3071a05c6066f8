/**
 The exponentially weighted recurrence (app/anomaly_detection/detectors.py:314-347) and its closed form.

 After `n` values the first weighs `(1 - alpha)^(n - 1)` and every later one `alpha * (1 - alpha)^(n - 1 - i)`.
 */
module Ewma {
  import opened Averages

  // ---------- The recurrence ----------

  function NextLevel(alpha: real, level: real, deviation: real): real {
    level + alpha * deviation
  }

  function NextVariation(alpha: real, variance: real, deviation: real): real {
    (1.0 - alpha) * (variance + alpha * Square(deviation))
  }

  /** `level` after the first `n` values. */
  function Level(values: seq<real>, alpha: real, n: nat): real
    requires 1 <= n <= |values|
  {
    if n == 1 then values[0]
    else
      var level := Level(values, alpha, n - 1);
      NextLevel(alpha, level, values[n - 1] - level)
  }

  /** `variance` after the first `n` values. */
  function Variation(values: seq<real>, alpha: real, n: nat): real
    requires 1 <= n <= |values|
  {
    if n == 1 then 0.0
    else NextVariation(alpha, Variation(values, alpha, n - 1), values[n - 1] - Level(values, alpha, n - 1))
  }

  // ---------- The closed form ----------

  function Pow(x: real, n: nat): real {
    if n == 0 then 1.0 else x * Pow(x, n - 1)
  }

  /** The weight of value `i` after `n` values. */
  function Weight(alpha: real, n: nat, i: nat): real
    requires i < n
  {
    if i == 0 then Pow(1.0 - alpha, n - 1) else alpha * Pow(1.0 - alpha, n - 1 - i)
  }

  /** The total weight of the first `k` of `n` values. */
  function Weights(alpha: real, n: nat, k: nat): real
    requires k <= n
  {
    if k == 0 then 0.0 else Weights(alpha, n, k - 1) + Weight(alpha, n, k - 1)
  }

  function WeightedSum(values: seq<real>, alpha: real, n: nat, k: nat): real
    requires k <= n && k <= |values|
  {
    if k == 0 then 0.0 else WeightedSum(values, alpha, n, k - 1) + Weight(alpha, n, k - 1) * values[k - 1]
  }

  /** The weighted sum of squared distances from `center`. */
  function WeightedSquares(values: seq<real>, alpha: real, n: nat, k: nat, center: real): real
    requires k <= n && k <= |values|
  {
    if k == 0 then 0.0
    else WeightedSquares(values, alpha, n, k - 1, center) + Weight(alpha, n, k - 1) * Square(values[k - 1] - center)
  }

  // ---------- One more value ----------

  lemma WeightDecays(alpha: real, n: nat, i: nat)
    requires i < n
    ensures Weight(alpha, n + 1, i) == (1.0 - alpha) * Weight(alpha, n, i)
  {
    if i > 0 { Regroup3(alpha, 1.0 - alpha, Pow(1.0 - alpha, n - 1 - i)); }
  }

  lemma Regroup3(a: real, b: real, c: real)
    ensures a * (b * c) == b * (a * c)
  {
  }

  /** One step of a weighted sum, when the weights have decayed by `c`. */
  lemma DecayStep(c: real, before: real, w: real, y: real, decayed: real, next: real)
    requires decayed == c * before && next == decayed + (c * w) * y
    ensures next == c * (before + w * y)
  {
    assert (c * w) * y == c * (w * y);
  }

  lemma {:induction false} WeightsDecay(alpha: real, n: nat, k: nat)
    requires k <= n
    ensures Weights(alpha, n + 1, k) == (1.0 - alpha) * Weights(alpha, n, k)
    decreases k
  {
    hide Weight;
    if k > 0 {
      WeightsDecay(alpha, n, k - 1);
      WeightDecays(alpha, n, k - 1);
      DecayStep(1.0 - alpha, Weights(alpha, n, k - 1), Weight(alpha, n, k - 1), 1.0,
        Weights(alpha, n + 1, k - 1), Weights(alpha, n + 1, k));
    }
  }

  lemma {:induction false} SumDecays(values: seq<real>, alpha: real, n: nat, k: nat)
    requires k <= n && k <= |values|
    ensures WeightedSum(values, alpha, n + 1, k) == (1.0 - alpha) * WeightedSum(values, alpha, n, k)
    decreases k
  {
    hide Weight;
    if k > 0 {
      SumDecays(values, alpha, n, k - 1);
      WeightDecays(alpha, n, k - 1);
      DecayStep(1.0 - alpha, WeightedSum(values, alpha, n, k - 1), Weight(alpha, n, k - 1), values[k - 1],
        WeightedSum(values, alpha, n + 1, k - 1), WeightedSum(values, alpha, n + 1, k));
    }
  }

  lemma {:induction false} SquaresDecay(values: seq<real>, alpha: real, n: nat, k: nat, center: real)
    requires k <= n && k <= |values|
    ensures WeightedSquares(values, alpha, n + 1, k, center)
            == (1.0 - alpha) * WeightedSquares(values, alpha, n, k, center)
    decreases k
  {
    hide Weight, Square;
    if k > 0 {
      SquaresDecay(values, alpha, n, k - 1, center);
      WeightDecays(alpha, n, k - 1);
      DecayStep(1.0 - alpha, WeightedSquares(values, alpha, n, k - 1, center), Weight(alpha, n, k - 1),
          Square(values[k - 1] - center),
        WeightedSquares(values, alpha, n + 1, k - 1, center), WeightedSquares(values, alpha, n + 1, k, center));
    }
  }

  lemma NewestWeight(alpha: real, n: nat)
    requires n >= 1
    ensures Weight(alpha, n + 1, n) == alpha && Weight(alpha, 1, 0) == 1.0
  {
  }

  /** The weights sum to 1, whatever `alpha` is. */
  lemma {:induction false} WeightsSumToOne(values: seq<real>, alpha: real, n: nat)
    requires 1 <= n <= |values|
    ensures Weights(alpha, n, n) == 1.0
    decreases n
  {
    if n == 1 {
      NewestWeight(alpha, 1);
    } else {
      WeightsSumToOne(values, alpha, n - 1);
      WeightsDecay(alpha, n - 1, n - 1);
      NewestWeight(alpha, n - 1);
    }
  }

  lemma LevelIdentity(alpha: real, level: real, value: real)
    ensures (1.0 - alpha) * level + alpha * value == NextLevel(alpha, level, value - level)
  {
  }

  /** `level` is the weighted mean of the values. */
  lemma {:induction false} LevelIsWeightedMean(values: seq<real>, alpha: real, n: nat)
    requires 1 <= n <= |values|
    ensures Level(values, alpha, n) == WeightedSum(values, alpha, n, n)
    decreases n
  {
    hide Weight, NextLevel;
    if n == 1 {
      NewestWeight(alpha, 1);
    } else {
      LevelIsWeightedMean(values, alpha, n - 1);
      SumDecays(values, alpha, n - 1, n - 1);
      NewestWeight(alpha, n - 1);
      LevelIdentity(alpha, Level(values, alpha, n - 1), values[n - 1]);
    }
  }

  // ---------- The variance ----------

  /** The sums of a prefix: squares about 0 and about `c`, values and weights. */
  datatype Sums = Sums(squares: real, shifted: real, sum: real, total: real)

  function SumsOf(values: seq<real>, alpha: real, n: nat, k: nat, c: real): Sums
    requires k <= n && k <= |values|
  {
    Sums(WeightedSquares(values, alpha, n, k, 0.0), WeightedSquares(values, alpha, n, k, c),
      WeightedSum(values, alpha, n, k), Weights(alpha, n, k))
  }

  function Add(s: Sums, w: real, v: real, c: real): Sums {
    Sums(s.squares + w * Square(v), s.shifted + w * Square(v - c), s.sum + w * v, s.total + w)
  }

  lemma SumsStep(values: seq<real>, alpha: real, n: nat, k: nat, c: real)
    requires 1 <= k <= n && k <= |values|
    ensures SumsOf(values, alpha, n, k, c)
            == Add(SumsOf(values, alpha, n, k - 1, c), Weight(alpha, n, k - 1), values[k - 1], c)
  {
    hide Weight, Square;
    assert values[k - 1] - 0.0 == values[k - 1];
  }

  predicate Expanded(s: Sums, c: real) {
    s.shifted == s.squares - 2.0 * (c * s.sum) + Square(c) * s.total
  }

  lemma ExpandedStep(s: Sums, w: real, v: real, c: real)
    requires Expanded(s, c)
    ensures Expanded(Add(s, w, v, c), c)
  {
    var vv, cc, cv := v * v, c * c, c * v;
    assert (v - c) * (v - c) == vv - 2.0 * cv + cc;
    assert w * (vv - 2.0 * cv + cc) == w * vv - 2.0 * (w * cv) + w * cc;
    assert c * (w * v) == w * cv;
    assert c * (s.sum + w * v) == c * s.sum + c * (w * v);
    assert cc * (s.total + w) == cc * s.total + w * cc;
  }

  lemma {:induction false} Shift(values: seq<real>, alpha: real, n: nat, k: nat, c: real)
    requires k <= n && k <= |values|
    ensures Expanded(SumsOf(values, alpha, n, k, c), c)
    decreases k
  {
    if k > 0 {
      hide *;
      Shift(values, alpha, n, k - 1, c);
      SumsStep(values, alpha, n, k, c);
      ExpandedStep(SumsOf(values, alpha, n, k - 1, c), Weight(alpha, n, k - 1), values[k - 1], c);
    }
  }

  /** Moving the center away from the mean adds the squared distance. */
  lemma OffCenter(values: seq<real>, alpha: real, n: nat, c: real)
    requires 1 <= n <= |values|
    ensures var level := Level(values, alpha, n);
            WeightedSquares(values, alpha, n, n, c) == WeightedSquares(values, alpha, n, n, level) + Square(c - level)
  {
    hide Level, WeightedSquares, WeightedSum, Weights;
    var level := Level(values, alpha, n);
    Shift(values, alpha, n, n, c);
    Shift(values, alpha, n, n, level);
    WeightsSumToOne(values, alpha, n);
    LevelIsWeightedMean(values, alpha, n);
    assert (c - level) * (c - level) == c * c - 2.0 * (c * level) + level * level;
  }

  lemma UpdateIdentity(alpha: real, variance: real, d: real)
    ensures var moved, left := alpha * d, d - alpha * d;
            (1.0 - alpha) * (variance + Square(moved)) + alpha * Square(left)
                == (1.0 - alpha) * (variance + alpha * Square(d))
  {
    var dd, aa := d * d, alpha * alpha;
    assert (alpha * d) * (alpha * d) == aa * dd;
    assert (d - alpha * d) * (d - alpha * d) == dd - 2.0 * (alpha * dd) + aa * dd;
    assert alpha * (dd - 2.0 * (alpha * dd) + aa * dd) == alpha * dd - 2.0 * (aa * dd) + alpha * (aa * dd);
    assert (1.0 - alpha) * (variance + aa * dd) == (1.0 - alpha) * variance + aa * dd - alpha * (aa * dd);
    assert (1.0 - alpha) * (variance + alpha * dd) == (1.0 - alpha) * variance + alpha * dd - aa * dd;
  }

  /** `variance` is the weighted sum of squared distances from the current `level`. */
  lemma {:induction false} VariationIsWeightedSquares(values: seq<real>, alpha: real, n: nat)
    requires 1 <= n <= |values|
    ensures Variation(values, alpha, n) == WeightedSquares(values, alpha, n, n, Level(values, alpha, n))
    decreases n
  {
    if n > 1 {
      VariationIsWeightedSquares(values, alpha, n - 1);
      VariationStep(values, alpha, n);
    }
  }

  lemma VariationStep(values: seq<real>, alpha: real, n: nat)
    requires 2 <= n <= |values|
    requires Variation(values, alpha, n - 1)
             == WeightedSquares(values, alpha, n - 1, n - 1, Level(values, alpha, n - 1))
    ensures Variation(values, alpha, n) == WeightedSquares(values, alpha, n, n, Level(values, alpha, n))
  {
    hide Weight, Weights, WeightedSum, WeightedSquares, Pow, Square;
    var before, level := Level(values, alpha, n - 1), Level(values, alpha, n);
    var d, variation := values[n - 1] - before, Variation(values, alpha, n - 1);
    LastStep(values, alpha, n, level, d);
    OffCenter(values, alpha, n - 1, level);
    SquaresDecay(values, alpha, n - 1, n - 1, level);
    UpdateIdentity(alpha, variation, d);
    Combine(1.0 - alpha, variation + Square(alpha * d), alpha * Square(d - alpha * d), variation + alpha * Square(d),
      WeightedSquares(values, alpha, n - 1, n - 1, level), WeightedSquares(values, alpha, n, n - 1, level));
  }

  lemma Combine(keep: real, moved: real, newest: real, updated: real, shifted: real, decayed: real)
    requires shifted == moved && decayed == keep * shifted && keep * moved + newest == keep * updated
    ensures decayed + newest == keep * updated
  {
  }

  /** The last step of the recurrence and of the weighted sum. */
  lemma LastStep(values: seq<real>, alpha: real, n: nat, level: real, d: real)
    requires 2 <= n <= |values| && level == Level(values, alpha, n) && d == values[n - 1] - Level(values, alpha, n - 1)
    ensures level - Level(values, alpha, n - 1) == alpha * d
    ensures Variation(values, alpha, n) == (1.0 - alpha) * (Variation(values, alpha, n - 1) + alpha * Square(d))
    ensures WeightedSquares(values, alpha, n, n, level) ==
              WeightedSquares(values, alpha, n, n - 1, level) + alpha * Square(d - alpha * d)
  {
    hide Weight, Weights, WeightedSum, Pow, Square;
    NewestWeight(alpha, n - 1);
    var before := Level(values, alpha, n - 1);
    assert level == before + alpha * d;
    assert values[n - 1] - level == d - alpha * d;
  }

  // ---------- Bounds, for a smoothing factor between 0 and 1 ----------

  lemma {:induction false} PowNonNegative(x: real, n: nat)
    requires x >= 0.0
    ensures Pow(x, n) >= 0.0
  {
    if n > 0 { PowNonNegative(x, n - 1); }
  }

  lemma WeightNonNegative(alpha: real, n: nat, i: nat)
    requires 0.0 <= alpha <= 1.0 && i < n
    ensures Weight(alpha, n, i) >= 0.0
  {
    PowNonNegative(1.0 - alpha, n - 1 - i);
    if i == 0 {
    } else {
      ProductNonNegative(alpha, Pow(1.0 - alpha, n - 1 - i));
    }
  }

  lemma ProductNonNegative(x: real, y: real)
    requires x >= 0.0 && y >= 0.0
    ensures x * y >= 0.0
  {
  }

  lemma LowStep(w: real, v: real, low: real, total: real, sum: real)
    requires w >= 0.0 && v >= low && sum >= low * total
    ensures sum + w * v >= low * (total + w)
  {
    ProductNonNegative(w, v - low);
    assert low * (total + w) == low * total + low * w && w * (v - low) == w * v - low * w;
  }

  lemma HighStep(w: real, v: real, high: real, total: real, sum: real)
    requires w >= 0.0 && v <= high && sum <= high * total
    ensures sum + w * v <= high * (total + w)
  {
    ProductNonNegative(w, high - v);
    assert high * (total + w) == high * total + high * w && w * (high - v) == high * w - w * v;
  }

  lemma {:induction false} WeightedSumAbove(values: seq<real>, alpha: real, n: nat, k: nat, low: real)
    requires 0.0 <= alpha <= 1.0 && k <= n && k <= |values| && forall i :: 0 <= i < k ==> low <= values[i]
    ensures low * Weights(alpha, n, k) <= WeightedSum(values, alpha, n, k)
    decreases k
  {
    hide Weight;
    if k > 0 {
      WeightedSumAbove(values, alpha, n, k - 1, low);
      WeightNonNegative(alpha, n, k - 1);
      LowStep(Weight(alpha, n, k - 1), values[k - 1], low, Weights(alpha, n, k - 1),
          WeightedSum(values, alpha, n, k - 1));
    }
  }

  lemma {:induction false} WeightedSumBelow(values: seq<real>, alpha: real, n: nat, k: nat, high: real)
    requires 0.0 <= alpha <= 1.0 && k <= n && k <= |values| && forall i :: 0 <= i < k ==> values[i] <= high
    ensures WeightedSum(values, alpha, n, k) <= high * Weights(alpha, n, k)
    decreases k
  {
    hide Weight;
    if k > 0 {
      WeightedSumBelow(values, alpha, n, k - 1, high);
      WeightNonNegative(alpha, n, k - 1);
      HighStep(Weight(alpha, n, k - 1), values[k - 1], high, Weights(alpha, n, k - 1),
          WeightedSum(values, alpha, n, k - 1));
    }
  }

  /** The level stays between the least and the greatest value seen. */
  lemma LevelStaysInRange(values: seq<real>, alpha: real, n: nat, low: real, high: real)
    requires 0.0 <= alpha <= 1.0 && 1 <= n <= |values|
    requires forall i :: 0 <= i < n ==> low <= values[i] <= high
    ensures low <= Level(values, alpha, n) <= high
  {
    hide Weights, WeightedSum, Level;
    WeightedSumAbove(values, alpha, n, n, low);
    WeightedSumBelow(values, alpha, n, n, high);
    WeightsSumToOne(values, alpha, n);
    LevelIsWeightedMean(values, alpha, n);
  }

  lemma {:induction false} WeightedSquaresNonNegative(values: seq<real>, alpha: real, n: nat, k: nat, center: real)
    requires 0.0 <= alpha <= 1.0 && k <= n && k <= |values|
    ensures WeightedSquares(values, alpha, n, k, center) >= 0.0
    decreases k
  {
    hide Square;
    if k > 0 {
      WeightedSquaresNonNegative(values, alpha, n, k - 1, center);
      WeightNonNegative(alpha, n, k - 1);
      SquareSign(values[k - 1] - center);
      ProductNonNegative(Weight(alpha, n, k - 1), Square(values[k - 1] - center));
    }
  }

  lemma VariationNonNegative(values: seq<real>, alpha: real, n: nat)
    requires 0.0 <= alpha <= 1.0 && 1 <= n <= |values|
    ensures Variation(values, alpha, n) >= 0.0
  {
    VariationIsWeightedSquares(values, alpha, n);
    WeightedSquaresNonNegative(values, alpha, n, n, Level(values, alpha, n));
  }

  // ---------- Causality ----------

  /** Level and variance after `n` values depend on those values only. */
  lemma {:induction false} Causal(a: seq<real>, b: seq<real>, alpha: real, n: nat)
    requires 1 <= n <= |a| && n <= |b| && (forall i :: 0 <= i < n ==> a[i] == b[i])
    ensures Level(a, alpha, n) == Level(b, alpha, n) && Variation(a, alpha, n) == Variation(b, alpha, n)
    decreases n
  {
    if n > 1 { Causal(a, b, alpha, n - 1); }
  }

  /** Over a constant stretch the level stays and the variance stays zero. */
  lemma {:induction false} ConstantStretch(values: seq<real>, alpha: real, n: nat)
    requires 1 <= n <= |values| && (forall i :: 0 <= i < n ==> values[i] == values[0])
    ensures Level(values, alpha, n) == values[0] && Variation(values, alpha, n) == 0.0
    decreases n
  {
    if n > 1 { ConstantStretch(values, alpha, n - 1); }
  }
}
