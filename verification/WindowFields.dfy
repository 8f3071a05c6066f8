/**
 What the buckets are, read off the fields of a moment and the values themselves
 (app/core/timeutil.py:168-180, app/analytics/statistics.py:156-203).
 */
module WindowFields {
  import opened Options
  import opened Calendar
  import opened Alignment
  import opened Windows

  // ---------- Where a bucket starts ----------

  /** `start` lies on the grid of `length`, at most one length below `x`. */
  lemma AlignedBelow(x: int, start: int, length: int, q: int)
    requires length > 0 && start == q * length && start <= x < start + length
    ensures Align(x, length) == start
  {
    QuotientUnique(x, length, q, x - start);
  }

  /** The start of the bucket of `m`, field by field. */
  function Start(m: Moment, w: Window): Moment
    requires !w.Unsupported?
  {
    var hourly := m.(minute := 0, second := 0, micro := 0);
    match w
    case OneMinute => hourly.(minute := m.minute)
    case FiveMinutes => hourly.(minute := m.minute - m.minute % 5)
    case QuarterHour => hourly.(minute := m.minute - m.minute % 15)
    case OneHour => hourly
    case SixHours => hourly.(hour := m.hour - m.hour % 6)
    case OneDay => hourly.(hour := 0)
  }

  /** The number of whole windows before that start. */
  function Index(m: Moment, w: Window): int
    requires !w.Unsupported?
  {
    var days := Ordinal(m.year, m.month, m.day);
    match w
    case OneMinute => (days * 24 + m.hour) * 60 + m.minute
    case FiveMinutes => (days * 24 + m.hour) * 12 + m.minute / 5
    case QuarterHour => (days * 24 + m.hour) * 4 + m.minute / 15
    case OneHour => days * 24 + m.hour
    case SixHours => days * 4 + m.hour / 6
    case OneDay => days
  }

  lemma StartIsAligned(m: Moment, w: Window)
    requires Valid(m) && !w.Unsupported?
    ensures Valid(Start(m, w)) && Instant(Start(m, w)) == Align(Instant(m), Length(w))
  {
    hide Ordinal, Align;
    AlignedBelow(Instant(m), Instant(Start(m, w)), Length(w), Index(m, w));
  }

  /** Every supported window cuts the clock at its own marks. */
  lemma FloorFields(m: Moment, w: Window)
    requires Valid(m)
    ensures FloorToWindow(m, w) == if w.Unsupported? then Raises else Returns(Start(m, w))
  {
    hide Instant, Valid, Align, FloorToWindow, Length, Start;
    FloorIsAligned(m, w);
    if !w.Unsupported? {
      StartIsAligned(m, w);
      InstantInjective(FloorToWindow(m, w).value, Start(m, w));
    }
  }

  // ---------- What a bucket holds ----------

  /** The total of `values`, or the number of timestamps, over the first `n` timestamps whose bucket starts at `m`. */
  function Held(timestamps: seq<Moment>, w: Window, values: seq<real>, n: nat, m: Moment): real
    requires n <= |timestamps| && !w.Unsupported? && (values == [] || n <= |values|)
  {
    if n == 0 then 0.0
    else if Start(timestamps[n - 1], w) != m then Held(timestamps, w, values, n - 1, m)
    else Held(timestamps, w, values, n - 1, m) + if values == [] then 1.0 else values[n - 1]
  }

  lemma BucketIsStart(m: Moment, w: Window)
    requires Valid(m) && !w.Unsupported?
    ensures BucketOf(m, w) == Start(m, w)
  {
    hide FloorToWindow, Start, Instant, Align, Length;
    FloorFields(m, w);
  }

  /** There is a bucket exactly where a timestamp starts one, and it holds exactly those timestamps. */
  lemma {:induction false} BucketsHold(timestamps: seq<Moment>, w: Window, values: seq<real>, n: nat, m: Moment)
    requires n <= |timestamps| && (forall t :: t in timestamps ==> Valid(t)) && !w.Unsupported?
    requires values == [] || n <= |values|
    ensures var buckets := Bucketed(timestamps, w, values, n);
      && (m in buckets <==> exists i :: 0 <= i < n && Start(timestamps[i], w) == m)
      && (m in buckets ==> buckets[m] == Held(timestamps, w, values, n, m))
      && (m !in buckets ==> Held(timestamps, w, values, n, m) == 0.0)
    decreases n
  {
    hide BucketOf, Start, Valid, Instant, Align, Length;
    if n > 0 {
      BucketsHold(timestamps, w, values, n - 1, m);
      BucketIsStart(timestamps[n - 1], w);
    }
  }

  // ---------- What a point shows ----------

  /** The count is the value without its fraction. */
  predicate DropsFraction(count: int, value: real) {
    if value >= 0.0 then count as real <= value < count as real + 1.0 else count as real - 1.0 < value <= count as real
  }

  /** The series has a point for every start, in order; a bucket that is missing counts as zero. */
  lemma {:induction false} PointShows(starts: seq<Moment>, buckets: Buckets, i: nat)
    requires i < |starts|
    ensures var points := Pointed(starts, buckets);
      && |points| == |starts| && points[i].bucket == starts[i]
      && points[i].value == (if starts[i] in buckets then buckets[starts[i]] else 0.0)
      && DropsFraction(points[i].count, points[i].value)
    decreases |starts|
  {
    var before := starts[..|starts| - 1];
    if before != [] { PointShows(before, buckets, if i < |before| then i else 0); }
  }
}
