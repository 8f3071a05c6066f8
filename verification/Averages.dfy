/**
 Trailing averages and deviations (app/analytics/statistics.py:92-124), in exact arithmetic.  Standard
 deviations are kept squared.
 */
module Averages {
  import opened Options

  /** The sum of `values[lo..hi]`. */
  function Sum(values: seq<real>, lo: nat, hi: nat): real
    requires lo <= hi <= |values|
    decreases hi - lo
  {
    if lo == hi then 0.0 else Sum(values, lo, hi - 1) + values[hi - 1]
  }

  lemma {:induction false} SumDropsFirst(values: seq<real>, lo: nat, hi: nat)
    requires lo < hi <= |values|
    ensures Sum(values, lo, hi) == values[lo] + Sum(values, lo + 1, hi)
    decreases hi - lo
  {
    if lo + 1 < hi { SumDropsFirst(values, lo, hi - 1); }
  }

  lemma {:induction false} SumIsLocal(a: seq<real>, b: seq<real>, lo: nat, hi: nat)
    requires lo <= hi <= |a| && hi <= |b| && (forall i :: lo <= i < hi ==> a[i] == b[i])
    ensures Sum(a, lo, hi) == Sum(b, lo, hi)
    decreases hi - lo
  {
    if lo < hi { SumIsLocal(a, b, lo, hi - 1); }
  }

  /** Where the trailing window of `index` starts. */
  function WindowStart(index: nat, window: nat): (r: nat)
    requires window >= 1
    ensures r <= index
  {
    if index + 1 <= window then 0 else index + 1 - window
  }

  function Mean(values: seq<real>, lo: nat, hi: nat): real
    requires lo < hi <= |values|
  {
    Sum(values, lo, hi) / (hi - lo) as real
  }

  /** The running sum gives, at every index, the mean of the trailing window. */
  method MovingAverage(values: seq<real>, window: int) returns (r: Attempt<seq<real>>)
    ensures r.Raises? <==> window < 1
    ensures r.Returns? ==> |r.value| == |values|
    ensures r.Returns? ==> forall i :: 0 <= i < |values| ==> r.value[i] == Mean(values, WindowStart(i, window), i + 1)
  {
    if window < 1 { return Raises; }
    var out: seq<real>, running := [], 0.0;
    for index := 0 to |values|
      invariant |out| == index
      invariant running == Sum(values, if index <= window then 0 else index - window, index)
      invariant forall i :: 0 <= i < index ==> out[i] == Mean(values, WindowStart(i, window), i + 1)
    {
      running := running + values[index];
      if index >= window {
        SumDropsFirst(values, index - window, index + 1);
        running := running - values[index - window];
      }
      out := out + [running / (if index + 1 <= window then index + 1 else window) as real];
    }
    return Returns(out);
  }

  // ---------- Deviations ----------

  function Square(x: real): real {
    x * x
  }

  lemma ProductPositive(x: real, y: real, product: real)
    requires x > 0.0 && y > 0.0 && product == x * y
    ensures product > 0.0
  {
  }

  lemma SquareOfNegation(x: real)
    ensures Square(0.0 - x) == Square(x)
  {
  }

  lemma SquareOfPositive(x: real)
    requires x > 0.0
    ensures Square(x) > 0.0
  {
    ProductPositive(x, x, Square(x));
  }

  lemma SquareSign(x: real)
    ensures Square(x) >= 0.0
    ensures x != 0.0 ==> Square(x) > 0.0
    ensures x == 0.0 ==> Square(x) == 0.0
  {
    if x == 0.0 {
    } else {
      hide Square;
      SquareOfNegation(x);
      if x > 0.0 { SquareOfPositive(x); } else { SquareOfPositive(0.0 - x); }
    }
  }

  /** The sum of squared distances of `values[lo..hi]` from `center`. */
  function Squares(values: seq<real>, lo: nat, hi: nat, center: real): real
    requires lo <= hi <= |values|
    decreases hi - lo
  {
    if lo == hi then 0.0
    else Squares(values, lo, hi - 1, center) + Square(values[hi - 1] - center)
  }

  /** The sample variance of `values[lo..hi]`, zero for fewer than two values. */
  function Variance(values: seq<real>, lo: nat, hi: nat): real
    requires lo < hi <= |values|
  {
    if hi - lo < 2 then 0.0 else Squares(values, lo, hi, Mean(values, lo, hi)) / (hi - lo - 1) as real
  }

  method RollingVariance(values: seq<real>, window: int) returns (r: Attempt<seq<real>>)
    ensures r.Raises? <==> window < 2
    ensures r.Returns? ==> |r.value| == |values|
    ensures r.Returns? ==> forall i :: 0 <= i < |values| ==>
            r.value[i] == Variance(values, WindowStart(i, window), i + 1)
  {
    if window < 2 { return Raises; }
    var out: seq<real> := [];
    for index := 0 to |values|
      invariant |out| == index
      invariant forall i :: 0 <= i < index ==> out[i] == Variance(values, WindowStart(i, window), i + 1)
    {
      var start := WindowStart(index, window);
      if index + 1 - start < 2 {
        out := out + [0.0];
        continue;
      }
      var sum, squares := 0.0, 0.0;
      for k := start to index + 1
        invariant sum == Sum(values, start, k)
      {
        sum := sum + values[k];
      }
      var mean := sum / (index + 1 - start) as real;
      for k := start to index + 1
        invariant squares == Squares(values, start, k, mean)
      {
        squares := squares + Square(values[k] - mean);
      }
      out := out + [squares / (index - start) as real];
    }
    return Returns(out);
  }

  lemma {:induction false} SquaresAreLocal(a: seq<real>, b: seq<real>, lo: nat, hi: nat, center: real)
    requires lo <= hi <= |a| && hi <= |b| && (forall i :: lo <= i < hi ==> a[i] == b[i])
    ensures Squares(a, lo, hi, center) == Squares(b, lo, hi, center)
    decreases hi - lo
  {
    if lo < hi { SquaresAreLocal(a, b, lo, hi - 1, center); }
  }

  lemma {:induction false} SquaresVanish(values: seq<real>, lo: nat, hi: nat, center: real)
    requires lo <= hi <= |values|
    ensures Squares(values, lo, hi, center) >= 0.0
    ensures Squares(values, lo, hi, center) == 0.0 <==> forall i :: lo <= i < hi ==> values[i] == center
    decreases hi - lo
  {
    hide Square;
    if lo < hi {
      SquaresVanish(values, lo, hi - 1, center);
      SquareSign(values[hi - 1] - center);
    }
  }

  lemma {:induction false} SumOfConstant(values: seq<real>, lo: nat, hi: nat, c: real)
    requires lo <= hi <= |values| && (forall i :: lo <= i < hi ==> values[i] == c)
    ensures Sum(values, lo, hi) == c * (hi - lo) as real
    decreases hi - lo
  {
    if lo < hi { SumOfConstant(values, lo, hi - 1, c); }
  }

  lemma QuotientSign(x: real, n: real)
    requires n > 0.0
    ensures (x >= 0.0 ==> x / n >= 0.0) && (x / n == 0.0 <==> x == 0.0)
  {
    assert x / n * n == x;
  }

  /** A spread is never negative, and is zero exactly over a perfectly flat window. */
  lemma ZeroSpreadIsFlat(values: seq<real>, lo: nat, hi: nat)
    requires lo < hi <= |values|
    ensures Variance(values, lo, hi) >= 0.0
    ensures hi - lo >= 2 ==> (Variance(values, lo, hi) == 0.0 <==> forall i :: lo <= i < hi ==> values[i] == values[lo])
  {
    if hi - lo >= 2 {
      var mean := Mean(values, lo, hi);
      SquaresVanish(values, lo, hi, mean);
      QuotientSign(Squares(values, lo, hi, mean), (hi - lo - 1) as real);
      if forall i :: lo <= i < hi ==> values[i] == values[lo] {
        SumOfConstant(values, lo, hi, values[lo]);
        assert mean == values[lo];
      }
    }
  }
}
