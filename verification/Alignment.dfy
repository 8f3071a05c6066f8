/** Rounding down to a multiple, for any positive length. */
module Alignment {
  /** The last multiple of `length` up to `i`. */
  function Align(i: int, length: int): int
    requires length > 0
  {
    i - i % length
  }

  lemma {:induction false} Growing(i: int, j: int, length: int)
    requires length > 0 && i <= j
    ensures i * length <= j * length && (i < j ==> i * length + length <= j * length)
    decreases j - i
  {
    if i < j {
      Growing(i, j - 1, length);
      assert j * length == (j - 1) * length + length;
    }
  }

  lemma QuotientUnique(x: int, k: int, q: int, r: int)
    requires k > 0 && 0 <= r < k && x == q * k + r
    ensures x / k == q && x % k == r
  {
    var p, s := x / k, x % k;
    assert x == p * k + s;
    if p > q { Growing(q, p, k); }
    if p < q { Growing(p, q, k); }
  }

  lemma Multiple(x: int, k: int)
    requires k > 0
    ensures Align(x, k) == (x / k) * k && Align(x, k) <= x < Align(x, k) + k
  {
  }

  lemma MultipleAligned(n: int, k: int)
    requires k > 0
    ensures Align(n * k, k) == n * k
  {
    QuotientUnique(n * k, k, n, 0);
  }

  lemma AlignIdempotent(x: int, k: int)
    requires k > 0
    ensures Align(Align(x, k), k) == Align(x, k)
  {
    Multiple(x, k);
    MultipleAligned(x / k, k);
  }

  lemma AlignMonotone(x: int, y: int, k: int)
    requires k > 0 && x <= y
    ensures Align(x, k) <= Align(y, k)
  {
    Multiple(x, k);
    Multiple(y, k);
    if x / k > y / k { Growing(y / k, x / k, k); }
    else { Growing(x / k, y / k, k); }
  }

  /** Shifting by a multiple shifts the aligned value. */
  lemma AlignShift(x: int, n: int, k: int)
    requires k > 0
    ensures Align(n * k + x, k) == n * k + Align(x, k)
  {
    var q := x / k;
    assert n * k + x == (n + q) * k + x % k;
    QuotientUnique(n * k + x, k, n + q, x % k);
  }

  /** Aligning in units of `unit` first makes no difference to aligning at a multiple of it. */
  lemma AlignCoarse(x: int, unit: int, s: int)
    requires unit > 0 && s > 0 && s * unit > 0
    ensures Align(x, s * unit) == Align(x / unit, s) * unit
  {
    var e, r := x / unit, x % unit;
    var q, u := e / s, e % s;
    assert e * unit == q * (s * unit) + u * unit by {
      assert e == q * s + u;
      assert (q * s + u) * unit == q * (s * unit) + u * unit;
    }
    Growing(0, u, unit);
    Growing(u, s, unit);
    assert x == e * unit + r;
    QuotientUnique(x, s * unit, q, u * unit + r);
    assert Align(e, s) * unit == (e - u) * unit == e * unit - u * unit;
  }

  /** The number of lengths between two aligned values. */
  ghost function Gap(start: int, end: int, length: int): (n: int)
    requires length > 0
    ensures Align(end, length) == Align(start, length) + n * length
  {
    Multiple(start, length);
    Multiple(end, length);
    assert (end / length) * length == (start / length) * length + (end / length - start / length) * length;
    end / length - start / length
  }

  /** Position in a progression follows value. */
  lemma Place(k: int, n: int, length: int)
    requires length > 0
    ensures k * length <= n * length <==> k <= n
  {
    if k <= n { Growing(k, n, length); } else { Growing(n, k, length); }
  }
}
