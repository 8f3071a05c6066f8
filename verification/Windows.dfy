/**
 Time buckets: flooring to a window, listing the buckets of a range, and gap-filled series over them
 (app/core/timeutil.py:168-202, app/analytics/statistics.py:156-203).
 */
module Windows {
  import opened Options
  import opened Calendar
  import opened Alignment
  import Averages

  datatype Window = OneMinute | FiveMinutes | QuarterHour | OneHour | SixHours | OneDay | Unsupported(name: string)

  function Seconds(w: Window): (r: int)
    requires !w.Unsupported?
    ensures r > 0 && DAY % (r * 1_000_000) == 0
  {
    match w
    case OneMinute => 60
    case FiveMinutes => 300
    case QuarterHour => 900
    case OneHour => 3600
    case SixHours => 21600
    case OneDay => 86400
  }

  function Length(w: Window): (r: int)
    requires !w.Unsupported?
    ensures r > 0 && DAY % r == 0
  {
    Seconds(w) * 1_000_000
  }

  // ---------- Flooring ----------

  function DayStart(m: Moment): Moment {
    m.(hour := 0, minute := 0, second := 0, micro := 0)
  }

  function FloorToWindow(m: Moment, w: Window): Attempt<Moment> {
    if w.Unsupported? then Raises
    else if w == OneDay then Returns(DayStart(m))
    else
      var elapsed := (Instant(m) - Instant(DayStart(m))) / 1_000_000;
      Plus(DayStart(m), Align(elapsed, Seconds(w)) * 1_000_000)
  }

  /** Whole days do not matter to alignment in a window that divides the day. */
  lemma AlignInDay(w: Window, days: int, t: int)
    requires !w.Unsupported?
    ensures Align(days * DAY + t, Length(w)) == days * DAY + Align(t / 1_000_000, Seconds(w)) * 1_000_000
  {
    var length := Length(w);
    var n := DAY / length;
    assert DAY == n * length;
    assert days * DAY == (days * n) * length;
    AlignShift(t, days * n, length);
    AlignCoarse(t, 1_000_000, Seconds(w));
  }

  lemma DayStartInstant(m: Moment)
    requires Valid(m)
    ensures Valid(DayStart(m)) && Instant(DayStart(m)) == Ordinal(m.year, m.month, m.day) * DAY
    ensures 0 <= Instant(m) - Instant(DayStart(m)) < DAY
  {
    TimeOfDayRange(m);
  }

  lemma AlignOneDay(days: int, t: int)
    requires 0 <= t < DAY
    ensures Align(days * DAY + t, DAY) == days * DAY
  {
  }

  lemma FloorWithinDay(m: Moment, w: Window)
    requires Valid(m) && !w.Unsupported? && w != OneDay
    ensures var floor := FloorToWindow(m, w);
            floor.Returns? && Valid(floor.value) && Instant(floor.value) == Align(Instant(m), Length(w))
  {
    hide Instant, Valid, At, Length, Seconds, Align, Ordinal;
    var days := Ordinal(m.year, m.month, m.day);
    DayStartInstant(m);
    InstantRange(m);
    AlignInDay(w, days, Instant(m) - days * DAY);
    Multiple(Instant(m), Length(w));
    MultipleAligned(0, Length(w));
    AlignMonotone(0, Instant(m), Length(w));
    var aligned := Align(Instant(m), Length(w));
    InstantOfAt(aligned);
    assert aligned == Instant(DayStart(m))
        + Align((Instant(m) - Instant(DayStart(m))) / 1_000_000, Seconds(w)) * 1_000_000;
    assert FloorToWindow(m, w) == Returns(At(aligned));
  }

  /**
   A supported window floors every moment to the last multiple of its length on the time line, and any other
   raises.
   */
  lemma FloorIsAligned(m: Moment, w: Window)
    requires Valid(m)
    ensures var floor := FloorToWindow(m, w);
            if w.Unsupported? then floor.Raises?
            else floor.Returns? && Valid(floor.value) && Instant(floor.value) == Align(Instant(m), Length(w))
  {
    hide Instant, Valid, At, Align, Ordinal;
    if w.Unsupported? {
    } else if w == OneDay {
      DayStartInstant(m);
      AlignOneDay(Ordinal(m.year, m.month, m.day), Instant(m) - Instant(DayStart(m)));
    } else {
      FloorWithinDay(m, w);
    }
  }

  /** Flooring is within one window below, idempotent and monotone. */
  lemma FloorProperties(a: Moment, b: Moment, w: Window)
    requires Valid(a) && Valid(b) && !w.Unsupported?
    ensures FloorToWindow(a, w).Returns? && FloorToWindow(b, w).Returns?
    ensures var floor := FloorToWindow(a, w).value;
            Instant(floor) <= Instant(a) < Instant(floor) + Length(w) && FloorToWindow(floor, w) == Returns(floor)
    ensures Instant(a) <= Instant(b) ==> Instant(FloorToWindow(a, w).value) <= Instant(FloorToWindow(b, w).value)
  {
    hide FloorToWindow;
    FloorIsAligned(a, w);
    FloorIsAligned(b, w);
    var floor := FloorToWindow(a, w).value;
    FloorIsAligned(floor, w);
    Multiple(Instant(a), Length(w));
    AlignIdempotent(Instant(a), Length(w));
    InstantInjective(floor, FloorToWindow(floor, w).value);
    if Instant(a) <= Instant(b) { AlignMonotone(Instant(a), Instant(b), Length(w)); }
  }

  // ---------- Listing the buckets of a range ----------

  /** `buckets` are the starts of consecutive windows, the first at `from` and the last at `to`. */
  ghost predicate Lists(buckets: seq<Moment>, from: int, to: int, length: int) {
    && (from > to ==> buckets == [])
    && (from <= to ==> to == from + (|buckets| - 1) * length)
    && forall k :: 0 <= k < |buckets| ==> Valid(buckets[k]) && Instant(buckets[k]) == from + k * length
  }

  method IterWindows(start: Moment, end: Moment, w: Window) returns (r: Attempt<seq<Moment>>)
    requires Valid(start) && Valid(end)
    ensures w.Unsupported? ==> r.Raises?
    ensures !w.Unsupported? ==>
              var from, to := Align(Instant(start), Length(w)), Align(Instant(end), Length(w));
              if from <= to && to + Length(w) >= END_OF_TIME then r.Raises?
              else r.Returns? && Lists(r.value, from, to, Length(w))
  {
    hide Instant, Valid, Align, Length, FloorToWindow, At;
    if w.Unsupported? { return Raises; }
    FloorIsAligned(start, w);
    FloorIsAligned(end, w);
    var current, stop := FloorToWindow(start, w).value, FloorToWindow(end, w).value;
    ghost var from, to, length := Instant(current), Instant(stop), Length(w);
    ghost var n := Gap(Instant(start), Instant(end), length);
    var out := [];
    Place(0, 0, length);
    while Instant(current) <= Instant(stop)
      invariant Valid(current) && Instant(current) == from + |out| * length
      invariant forall k :: 0 <= k < |out| ==> Valid(out[k]) && Instant(out[k]) == from + k * length
      invariant |out| <= (if n >= 0 then n + 1 else 0)
      decreases (if n >= 0 then n + 1 else 0) - |out|
    {
      Place(|out|, n, length);
      var next := Plus(current, Length(w));
      if next.Raises? {
        InstantRange(current);
        return Raises;
      }
      InstantOfAt(Instant(current) + length);
      assert (|out| + 1) * length == |out| * length + length;
      out := out + [current];
      current := next.value;
    }
    Place(|out|, n, length);
    Place(0, n, length);
    InstantRange(current);
    return Returns(out);
  }

  /** Every aligned moment of the range is listed, at exactly one place. */
  lemma ListsEachBucketOnce(buckets: seq<Moment>, from: int, to: int, w: Window, m: Moment)
    requires !w.Unsupported? && Lists(buckets, from, to, Length(w)) && Valid(m)
    requires Align(from, Length(w)) == from && Align(Instant(m), Length(w)) == Instant(m)
    ensures m in buckets <==> from <= Instant(m) <= to
    ensures forall i, j :: 0 <= i < j < |buckets| ==> buckets[i] != buckets[j]
  {
    hide Instant, Valid, Align, Length;
    var length := Length(w);
    forall i, j | 0 <= i < j < |buckets| ensures Instant(buckets[i]) < Instant(buckets[j]) {
      Growing(i, j, length);
    }
    if m in buckets {
      var k :| 0 <= k < |buckets| && buckets[k] == m;
      Growing(0, k, length);
      Growing(k, |buckets| - 1, length);
    }
    if from <= Instant(m) <= to {
      var k := Gap(from, Instant(m), length);
      Place(0, k, length);
      Place(k, |buckets| - 1, length);
      InstantInjective(buckets[k], m);
    }
  }

  // ---------- Bucketing ----------

  type Buckets = map<Moment, real>

  function Weight(values: seq<real>, i: nat): real
    requires values == [] || i < |values|
  {
    if values == [] then 1.0 else values[i]
  }

  function Get(buckets: Buckets, m: Moment): real {
    if m in buckets then buckets[m] else 0.0
  }

  /** The start of the bucket of `m`. */
  function BucketOf(m: Moment, w: Window): (r: Moment)
    requires Valid(m) && !w.Unsupported?
    ensures Valid(r) && Instant(r) == Align(Instant(m), Length(w))
  {
    FloorIsAligned(m, w);
    FloorToWindow(m, w).value
  }

  function Bucketed(timestamps: seq<Moment>, w: Window, values: seq<real>, n: nat): Buckets
    requires n <= |timestamps| && (forall m :: m in timestamps ==> Valid(m)) && !w.Unsupported?
    requires values == [] || n <= |values|
  {
    if n == 0 then map[]
    else
      var before, m := Bucketed(timestamps, w, values, n - 1), BucketOf(timestamps[n - 1], w);
      before[m := Get(before, m) + Weight(values, n - 1)]
  }

  /** No values, or an empty list of them, count each timestamp once; too few values raise. */
  method Bucketize(timestamps: seq<Moment>, w: Window, values: seq<real>) returns (r: Attempt<Buckets>)
    requires forall m :: m in timestamps ==> Valid(m)
    ensures r.Raises? <==> timestamps != [] && (w.Unsupported? || 0 < |values| < |timestamps|)
    ensures r.Returns? && timestamps != [] ==> r.value == Bucketed(timestamps, w, values, |timestamps|)
    ensures timestamps == [] ==> r == Returns(map[])
  {
    hide Instant, Valid, Align, Length, FloorToWindow;
    var buckets: Buckets := map[];
    for i := 0 to |timestamps|
      invariant i > 0 ==> !w.Unsupported? && (values == [] || i <= |values|)
      invariant if i == 0 then buckets == map[] else buckets == Bucketed(timestamps, w, values, i)
    {
      assert timestamps[i] in timestamps;
      FloorIsAligned(timestamps[i], w);
      var key := FloorToWindow(timestamps[i], w);
      if key.Raises? { return Raises; }
      if values != [] && i >= |values| { return Raises; }
      buckets := buckets[key.value := Get(buckets, key.value) + Weight(values, i)];
    }
    return Returns(buckets);
  }

  // ---------- Series ----------

  datatype Point = Point(bucket: Moment, value: real, count: int)

  /** `int` of a number drops its fraction. */
  function Truncated(x: real): int {
    if x >= 0.0 then x.Floor else -((-x).Floor)
  }

  function PointAt(m: Moment, buckets: Buckets): Point {
    Point(m, Get(buckets, m), Truncated(Get(buckets, m)))
  }

  function Pointed(starts: seq<Moment>, buckets: Buckets): seq<Point> {
    if starts == [] then [] else Pointed(starts[..|starts| - 1], buckets) + [PointAt(starts[|starts| - 1], buckets)]
  }

  function Total(points: seq<Point>): real {
    if points == [] then 0.0 else Total(points[..|points| - 1]) + points[|points| - 1].value
  }

  method Extreme(buckets: Buckets, latest: bool) returns (m: Moment)
    requires buckets != map[]
    ensures m in buckets
    ensures forall k :: k in buckets ==> if latest then Instant(k) <= Instant(m) else Instant(m) <= Instant(k)
  {
    assert buckets.Keys == {} ==> buckets == map[];
    m :| m in buckets;
    var rest := buckets.Keys - {m};
    while rest != {}
      invariant rest <= buckets.Keys && m in buckets
      invariant forall k :: k in buckets.Keys - rest ==>
                if latest then Instant(k) <= Instant(m) else Instant(m) <= Instant(k)
    {
      var k :| k in rest;
      rest := rest - {k};
      if (if latest then Instant(m) < Instant(k) else Instant(k) < Instant(m)) { m := k; }
    }
  }

  /** The bounds of a series: those given, or the earliest and the latest bucket. */
  ghost predicate Bounds(buckets: Buckets, start: Option<Moment>, end: Option<Moment>, first: Moment, last: Moment) {
    && (if start.Some? then first == start.value
        else first in buckets && forall k :: k in buckets ==> Instant(first) <= Instant(k))
    && (if end.Some? then last == end.value
        else last in buckets && forall k :: k in buckets ==> Instant(k) <= Instant(last))
  }

  ghost predicate Increasing(starts: seq<Moment>) {
    forall i, j :: 0 <= i < j < |starts| ==> Instant(starts[i]) < Instant(starts[j])
  }

  /** The points of a series: every window of the range when gaps are filled, or else the buckets there are, sorted. */
  ghost predicate SeriesOver(
      buckets: Buckets, w: Window, fillGaps: bool, first: Moment, last: Moment, starts: seq<Moment>)
  {
    if fillGaps then
      !w.Unsupported? && Lists(starts, Align(Instant(first), Length(w)), Align(Instant(last), Length(w)), Length(w))
    else
      Increasing(starts) && forall m :: m in starts <==> m in buckets
  }

  /** Listing the windows of a range runs past the last moment of the calendar. */
  predicate RunsOver(first: Moment, last: Moment, w: Window)
    requires !w.Unsupported?
  {
    var from, to := Align(Instant(first), Length(w)), Align(Instant(last), Length(w));
    from <= to && to + Length(w) >= END_OF_TIME
  }

  method SortBuckets(buckets: Buckets) returns (starts: seq<Moment>)
    requires forall m :: m in buckets ==> Valid(m)
    ensures Increasing(starts) && forall m :: m in starts <==> m in buckets
  {
    hide Instant, Valid;
    starts := [];
    var rest := buckets;
    while rest != map[]
      invariant rest.Keys <= buckets.Keys
      invariant Increasing(starts) && forall m :: m in starts <==> m in buckets && m !in rest
      invariant forall m, k :: m in starts && k in rest ==> Instant(m) < Instant(k)
      decreases |rest|
    {
      var m := Extreme(rest, false);
      forall k | k in rest && k != m ensures Instant(m) < Instant(k) {
        if Instant(m) == Instant(k) { InstantInjective(m, k); }
      }
      starts := starts + [m];
      rest := rest - {m};
    }
  }

  /** A missing bound is the earliest or latest bucket; an empty map gives an empty series. */
  method BuildSeries(buckets: Buckets, w: Window, start: Option<Moment>, end: Option<Moment>, fillGaps: bool)
    returns (r: Attempt<seq<Point>>, ghost first: Moment, ghost last: Moment, ghost starts: seq<Moment>)
    requires forall m :: m in buckets ==> Valid(m)
    requires (start.Some? ==> Valid(start.value)) && (end.Some? ==> Valid(end.value))
    ensures buckets == map[] ==> r == Returns([])
    ensures buckets != map[] ==> Bounds(buckets, start, end, first, last)
    ensures buckets != map[] && r.Returns? ==>
              r.value == Pointed(starts, buckets) && SeriesOver(buckets, w, fillGaps, first, last, starts)
    ensures r.Raises? <==> buckets != map[] && fillGaps && (w.Unsupported? || RunsOver(first, last, w))
  {
    hide Instant, Valid, Align, Length, Increasing, Lists;
    first, last, starts := Moment(1, 1, 1, 0, 0, 0, 0), Moment(1, 1, 1, 0, 0, 0, 0), [];
    if buckets == map[] { return Returns([]), first, last, []; }
    var from, to;
    if start.Some? { from := start.value; } else { from := Extreme(buckets, false); }
    if end.Some? { to := end.value; } else { to := Extreme(buckets, true); }
    first, last := from, to;
    var listed;
    if !fillGaps {
      listed := SortBuckets(buckets);
    } else {
      var windows := IterWindows(from, to, w);
      if windows.Raises? { return Raises, first, last, []; }
      listed := windows.value;
    }
    starts := listed;
    var points := [];
    for i := 0 to |listed|
      invariant points == Pointed(starts[..i], buckets)
    {
      assert starts[..i + 1][..i] == starts[..i];
      points := points + [PointAt(listed[i], buckets)];
    }
    assert starts[..|starts|] == starts;
    return Returns(points), first, last, starts;
  }

  /** The weight of the first `n` timestamps whose bucket lies in `[from, to]`. */
  function WeightIn(timestamps: seq<Moment>, values: seq<real>, n: nat, from: int, to: int, length: int): real
    requires n <= |timestamps| && (values == [] || n <= |values|) && length > 0
  {
    if n == 0 then 0.0
    else
      var listed := from <= Align(Instant(timestamps[n - 1]), length) <= to;
      WeightIn(timestamps, values, n - 1, from, to, length) + if listed then Weight(values, n - 1) else 0.0
  }

  lemma {:induction false} TotalOfNothing(starts: seq<Moment>)
    ensures Total(Pointed(starts, map[])) == 0.0
  {
    if starts != [] {
      var before := starts[..|starts| - 1];
      TotalOfNothing(before);
      TotalStep(before, starts[|starts| - 1], map[]);
    }
  }

  lemma TotalStep(starts: seq<Moment>, m: Moment, buckets: Buckets)
    ensures Total(Pointed(starts + [m], buckets)) == Total(Pointed(starts, buckets)) + Get(buckets, m)
  {
    assert (starts + [m])[..|starts|] == starts;
    var points := Pointed(starts, buckets);
    assert (points + [PointAt(m, buckets)])[..|points|] == points;
  }

  /** Adding weight to one bucket adds it to the series exactly when the bucket is listed. */
  lemma {:induction false} TotalAfterAdding(starts: seq<Moment>, buckets: Buckets, m: Moment, weight: real)
    requires forall i, j :: 0 <= i < j < |starts| ==> starts[i] != starts[j]
    ensures Total(Pointed(starts, buckets[m := Get(buckets, m) + weight]))
            == Total(Pointed(starts, buckets)) + if m in starts then weight else 0.0
  {
    if starts != [] {
      var before, last := starts[..|starts| - 1], starts[|starts| - 1];
      assert starts == before + [last];
      TotalAfterAdding(before, buckets, m, weight);
      TotalStep(before, last, buckets);
      TotalStep(before, last, buckets[m := Get(buckets, m) + weight]);
    }
  }

  /** A series over a range sums to the weight of exactly the timestamps whose bucket lies in the range. */
  lemma {:induction false} SeriesLosesNothing(timestamps: seq<Moment>, w: Window, values: seq<real>, n: nat,
        starts: seq<Moment>, from: int, to: int)
    requires n <= |timestamps| && (forall m :: m in timestamps ==> Valid(m)) && !w.Unsupported?
    requires values == [] || n <= |values|
    requires Lists(starts, from, to, Length(w)) && Align(from, Length(w)) == from
    ensures Total(Pointed(starts, Bucketed(timestamps, w, values, n)))
            == WeightIn(timestamps, values, n, from, to, Length(w))
    decreases n
  {
    hide Instant, Valid, Align, Length, FloorToWindow, Lists, BucketOf, Pointed, Total, Get, Weight;
    if n == 0 {
      TotalOfNothing(starts);
    } else {
      SeriesLosesNothing(timestamps, w, values, n - 1, starts, from, to);
      var m := BucketOf(timestamps[n - 1], w);
      AlignIdempotent(Instant(timestamps[n - 1]), Length(w));
      ListsEachBucketOnce(starts, from, to, w, m);
      TotalAfterAdding(starts, Bucketed(timestamps, w, values, n - 1), m, Weight(values, n - 1));
    }
  }

  // ---------- A series over everything ----------

  /** The weight of the first `n` timestamps. */
  function AllWeight(values: seq<real>, n: nat): real
    requires values == [] || n <= |values|
  {
    if n == 0 then 0.0 else AllWeight(values, n - 1) + Weight(values, n - 1)
  }

  /** With every bucket listed once, nothing is lost. */
  lemma {:induction false} CompleteTotal(
      timestamps: seq<Moment>, w: Window, values: seq<real>, n: nat, starts: seq<Moment>)
    requires n <= |timestamps| && (forall m :: m in timestamps ==> Valid(m)) && !w.Unsupported?
    requires values == [] || n <= |values|
    requires forall i, j :: 0 <= i < j < |starts| ==> starts[i] != starts[j]
    requires forall i :: 0 <= i < n ==> BucketOf(timestamps[i], w) in starts
    ensures Total(Pointed(starts, Bucketed(timestamps, w, values, n))) == AllWeight(values, n)
    decreases n
  {
    hide Instant, Valid, Align, Length, BucketOf, Pointed, Total, Get, Weight;
    if n == 0 {
      TotalOfNothing(starts);
    } else {
      CompleteTotal(timestamps, w, values, n - 1, starts);
      TotalAfterAdding(starts, Bucketed(timestamps, w, values, n - 1), BucketOf(timestamps[n - 1], w),
          Weight(values, n - 1));
    }
  }

  /** The buckets are aligned, and each timestamp has its own. */
  lemma {:induction false} BucketsOf(timestamps: seq<Moment>, w: Window, values: seq<real>, n: nat)
    requires n <= |timestamps| && (forall m :: m in timestamps ==> Valid(m)) && !w.Unsupported?
    requires values == [] || n <= |values|
    ensures var buckets := Bucketed(timestamps, w, values, n);
            && (forall i :: 0 <= i < n ==> BucketOf(timestamps[i], w) in buckets)
            && (forall m :: m in buckets ==> Valid(m) && Align(Instant(m), Length(w)) == Instant(m))
    decreases n
  {
    hide Instant, Valid, Align, Length, Get, Weight;
    if n > 0 {
      BucketsOf(timestamps, w, values, n - 1);
      AlignIdempotent(Instant(timestamps[n - 1]), Length(w));
    }
  }

  /** A series with default bounds lists every bucket, each once. */
  lemma SeriesListsAll(buckets: Buckets, w: Window, fillGaps: bool, first: Moment, last: Moment, starts: seq<Moment>)
    requires !w.Unsupported? && Bounds(buckets, None, None, first, last)
    requires SeriesOver(buckets, w, fillGaps, first, last, starts)
    requires forall m :: m in buckets ==> Valid(m) && Align(Instant(m), Length(w)) == Instant(m)
    ensures forall m :: m in buckets ==> m in starts
    ensures forall i, j :: 0 <= i < j < |starts| ==> starts[i] != starts[j]
  {
    hide Instant, Valid, Align, Length, Lists;
    if fillGaps {
      forall m | m in buckets ensures m in starts { ListsEachBucketOnce(starts, Instant(first), Instant(last), w, m); }
      ListsEachBucketOnce(starts, Instant(first), Instant(last), w, first);
    }
  }

  /**
   Bucketing timestamps and building the series with default bounds, with or without its gaps filled, loses
   no weight; and without values the points count every timestamp exactly once.
   */
  lemma FullSeriesTotals(timestamps: seq<Moment>, w: Window, values: seq<real>, fillGaps: bool,
        first: Moment, last: Moment, starts: seq<Moment>)
    requires (forall m :: m in timestamps ==> Valid(m)) && !w.Unsupported? && (values == [] || |timestamps| <= |values|)
    requires var buckets := Bucketed(timestamps, w, values, |timestamps|);
             Bounds(buckets, None, None, first, last) && SeriesOver(buckets, w, fillGaps, first, last, starts)
    ensures var points := Pointed(starts, Bucketed(timestamps, w, values, |timestamps|));
            && (values != [] ==> Total(points) == Averages.Sum(values, 0, |timestamps|))
            && (values == [] ==> Total(points) == |timestamps| as real && TotalCount(points) == |timestamps|)
  {
    hide Instant, Valid, Align, Length, BucketOf, Pointed, Total, TotalCount, Bucketed, Bounds, SeriesOver;
    var n := |timestamps|;
    var buckets := Bucketed(timestamps, w, values, n);
    BucketsOf(timestamps, w, values, n);
    SeriesListsAll(buckets, w, fillGaps, first, last, starts);
    CompleteTotal(timestamps, w, values, n, starts);
    if values == [] {
      UnitWeight(n);
      WholeBuckets(timestamps, w, n);
      WholeCounts(starts, buckets);
    } else {
      WeightIsSum(values, n);
    }
  }

  lemma {:induction false} WeightIsSum(values: seq<real>, n: nat)
    requires values != [] && n <= |values|
    ensures AllWeight(values, n) == Averages.Sum(values, 0, n)
  {
    if n > 0 { WeightIsSum(values, n - 1); }
  }

  lemma {:induction false} UnitWeight(n: nat)
    ensures AllWeight([], n) == n as real
  {
    if n > 0 { UnitWeight(n - 1); }
  }

  function TotalCount(points: seq<Point>): int {
    if points == [] then 0 else TotalCount(points[..|points| - 1]) + points[|points| - 1].count
  }

  ghost predicate Whole(buckets: Buckets) {
    forall m :: Get(buckets, m) == Get(buckets, m).Floor as real
  }

  lemma {:induction false} WholeBuckets(timestamps: seq<Moment>, w: Window, n: nat)
    requires n <= |timestamps| && (forall m :: m in timestamps ==> Valid(m)) && !w.Unsupported?
    ensures Whole(Bucketed(timestamps, w, [], n))
    decreases n
  {
    hide Valid, BucketOf;
    if n > 0 {
      WholeBuckets(timestamps, w, n - 1);
      AddOne(Bucketed(timestamps, w, [], n - 1), BucketOf(timestamps[n - 1], w));
    }
  }

  lemma AddOne(buckets: Buckets, m: Moment)
    requires Whole(buckets)
    ensures Whole(buckets[m := Get(buckets, m) + 1.0])
  {
    var x, more := Get(buckets, m), buckets[m := Get(buckets, m) + 1.0];
    assert x + 1.0 == (x.Floor + 1) as real;
    forall k ensures Get(more, k) == Get(more, k).Floor as real {
      assert Get(buckets, k) == Get(buckets, k).Floor as real;
    }
  }

  lemma {:induction false} WholeCounts(starts: seq<Moment>, buckets: Buckets)
    requires Whole(buckets)
    ensures TotalCount(Pointed(starts, buckets)) as real == Total(Pointed(starts, buckets))
    decreases |starts|
  {
    if starts != [] {
      var before, m := starts[..|starts| - 1], starts[|starts| - 1];
      WholeCounts(before, buckets);
      var points := Pointed(before, buckets);
      assert (points + [PointAt(m, buckets)])[..|points|] == points;
      assert PointAt(m, buckets).count as real == Get(buckets, m);
    }
  }
}
