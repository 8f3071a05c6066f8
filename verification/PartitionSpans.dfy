/**
 Pruning keeps no more than it must (app/storage/partitioning.py:65-78, 98-136): a directory is a candidate for
 a range exactly when some moment of the range is written there.
 */
module PartitionSpans {
  import opened Options
  import opened Calendar
  import opened Partitioning

  // ---------- The span of a directory holds only its own moments ----------

  /** Not before a moment and before another, date by date. */
  lemma BetweenFields(low: Moment, t: Moment, high: Moment)
    requires Valid(low) && Valid(t) && Valid(high) && Instant(low) <= Instant(t) < Instant(high)
    ensures !Earlier((t.year, t.month, t.day), (low.year, low.month, low.day))
    ensures !Earlier((high.year, high.month, high.day), (t.year, t.month, t.day))
    ensures (t.year, t.month, t.day) == (high.year, high.month, high.day) ==> TimeOfDay(t) < TimeOfDay(high)
  {
    hide Instant, Valid, TimeOfDay;
    FieldOrderIsTimeOrder(t, low);
    FieldOrderIsTimeOrder(t, high);
  }

  lemma YearSpan(m: Moment, t: Moment)
    requires Valid(m) && Valid(t) && !AtTheEnd(m, 1)
    requires Instant(Floor(m, 1)) <= Instant(t) < Instant(EndOf(Floor(m, 1), ValuesOf(m, [Year])).value)
    ensures t.year == m.year
  {
    var end := Floor(m, 1).(year := m.year + 1);
    assert EndOf(Floor(m, 1), ValuesOf(m, [Year])) == Returns(end);
    BetweenFields(Floor(m, 1), t, end);
  }

  lemma MonthSpan(m: Moment, t: Moment)
    requires Valid(m) && Valid(t) && !AtTheEnd(m, 2)
    requires EndOf(Floor(m, 2), ValuesOf(m, [Year, Month])).Returns?
    requires Instant(Floor(m, 2)) <= Instant(t) < Instant(EndOf(Floor(m, 2), ValuesOf(m, [Year, Month])).value)
    ensures t.year == m.year && t.month == m.month
  {
    var floor := Floor(m, 2);
    MonthEnd(floor);
    assert EndOf(floor, ValuesOf(m, [Year, Month])) == Returns(NextMonth(floor));
    BetweenFields(floor, t, NextMonth(floor));
  }

  /** The end of a span of fixed length. */
  lemma FixedEnd(floor: Moment, length: int)
    requires Plus(floor, length).Returns?
    ensures Instant(Plus(floor, length).value) == Instant(floor) + length
  {
    InstantOfAt(Instant(floor) + length);
  }

  lemma DaySpan(m: Moment, t: Moment)
    requires Valid(m) && Valid(t)
    requires Instant(Floor(m, 3)) <= Instant(t) < Instant(Floor(m, 3)) + DAY
    ensures t.year == m.year && t.month == m.month && t.day == m.day
  {
    TimeOfDayRange(t);
    assert Instant(Floor(m, 3)) == Ordinal(m.year, m.month, m.day) * DAY;
    assert Ordinal(t.year, t.month, t.day) == Ordinal(m.year, m.month, m.day);
    OrdinalInjective((m.year, m.month, m.day), (t.year, t.month, t.day));
  }

  lemma HourSpan(m: Moment, t: Moment)
    requires Valid(m) && Valid(t)
    requires Instant(Floor(m, 4)) <= Instant(t) < Instant(Floor(m, 4)) + HOUR
    ensures t.year == m.year && t.month == m.month && t.day == m.day && t.hour == m.hour
  {
    assert Instant(Floor(m, 4)) == Instant(Floor(m, 3)) + m.hour * HOUR;
    DaySpan(m, t);
    assert m.hour * HOUR <= TimeOfDay(t) < m.hour * HOUR + HOUR;
  }

  /** Every moment of the span of a directory has the values of that directory. */
  lemma SpanIsHome(m: Moment, t: Moment, keys: seq<Key>)
    requires Valid(m) && Valid(t) && Prefix(keys) && !AtTheEnd(m, |keys|)
    requires EndOf(Floor(m, |keys|), ValuesOf(m, keys)).Returns?
    requires Instant(Floor(m, |keys|)) <= Instant(t) < Instant(EndOf(Floor(m, |keys|), ValuesOf(m, keys)).value)
    ensures forall k :: k in keys ==> Value(t, k) == Value(m, k)
  {
    hide Instant, Valid;
    if |keys| == 1 {
      assert keys == [Year];
      YearSpan(m, t);
    } else if |keys| == 2 {
      assert keys == [Year, Month];
      MonthSpan(m, t);
    } else if |keys| == 3 {
      assert keys == [Year, Month, Day];
      FixedEnd(Floor(m, 3), DAY);
      DaySpan(m, t);
    } else {
      assert keys == [Year, Month, Day, Hour];
      FixedEnd(Floor(m, 4), HOUR);
      HourSpan(m, t);
    }
  }

  lemma {:induction false} SameSegments(m: Moment, t: Moment, keys: seq<Key>)
    requires Valid(m) && Valid(t) && Supported(keys) && forall k :: k in keys ==> Value(t, k) == Value(m, k)
    ensures Segments(t, keys) == Segments(m, keys)
    decreases |keys|
  {
    if keys != [] {
      assert keys[|keys| - 1] in keys;
      SameSegments(m, t, keys[..|keys| - 1]);
    }
  }

  // ---------- A kept directory is needed ----------

  predicate Within(t: Moment, start: Option<Moment>, end: Option<Moment>) {
    && (start.Some? ==> Instant(start.value) <= Instant(t))
    && (end.Some? ==> Instant(t) <= Instant(end.value))
  }

  /** The later of a bound and the first moment of a span. */
  function FirstWithin(floor: Moment, start: Option<Moment>): Moment {
    if start.Some? && Instant(floor) < Instant(start.value) then start.value else floor
  }

  /** The bounds make a range, and are moments. */
  predicate IsRange(start: Option<Moment>, end: Option<Moment>) {
    && (start.Some? ==> Valid(start.value)) && (end.Some? ==> Valid(end.value))
    && (start.Some? && end.Some? ==> Instant(start.value) <= Instant(end.value))
  }

  /** Some moment of the range is written to the directory. */
  ghost predicate Reaches(path: Path, root: Path, keys: seq<Key>, start: Option<Moment>, end: Option<Moment>)
    requires Prefix(keys)
  {
    exists t :: ReachesAt(path, root, keys, start, end, t)
  }

  predicate ReachesAt(path: Path, root: Path, keys: seq<Key>, start: Option<Moment>, end: Option<Moment>, t: Moment)
    requires Prefix(keys)
  {
    Valid(t) && Home(root, t, keys) == path && Within(t, start, end)
  }

  lemma WantedIsReached(root: Path, m: Moment, keys: seq<Key>, start: Option<Moment>, end: Option<Moment>)
    requires PlainRoot(root) && Valid(m) && Prefix(keys) && IsRange(start, end) && !AtTheEnd(m, |keys|)
    requires Wanted(Home(root, m, keys), start, end)
    ensures Reaches(Home(root, m, keys), root, keys, start, end)
  {
    hide Values, Instant, Valid, EndOf, StartOf, ValuesOf, Segments;
    var path := Home(root, m, keys);
    ParseInvertsPath(root, m, keys);
    SpanHolds(m, keys);
    StartIsFloor(m, keys);
    if Bounded(start, end) {
      var t := FirstWithin(Floor(m, |keys|), start);
      SpanIsHome(m, t, keys);
      SameSegments(m, t, keys);
      assert ReachesAt(path, root, keys, start, end, t);
    } else {
      assert ReachesAt(path, root, keys, start, end, m);
    }
  }

  lemma ReachedIsWanted(path: Path, root: Path, keys: seq<Key>, start: Option<Moment>, end: Option<Moment>)
    requires PlainRoot(root) && Prefix(keys) && Reaches(path, root, keys, start, end) && !Stuck(path, start, end)
    ensures Wanted(path, start, end)
  {
    hide Values, Instant, Valid, EndOf, StartOf, ValuesOf;
    var t :| ReachesAt(path, root, keys, start, end, t);
    ParseInvertsPath(root, t, keys);
    SpanHolds(t, keys);
  }

  /** How often a directory is kept: as often as it is listed, or not at all. */
  lemma {:induction false} KeptAsListed(listing: seq<Path>, start: Option<Moment>, end: Option<Moment>, path: Path)
    ensures multiset(Kept(listing, start, end))[path] == if Wanted(path, start, end) then multiset(listing)[path] else 0
    decreases |listing|
  {
    hide Wanted;
    if listing != [] {
      assert listing == listing[..|listing| - 1] + [listing[|listing| - 1]];
      KeptAsListed(listing[..|listing| - 1], start, end, path);
    }
  }

  lemma WantedMeans(root: Path, m: Moment, keys: seq<Key>, start: Option<Moment>, end: Option<Moment>)
    requires PlainRoot(root) && Valid(m) && Prefix(keys) && IsRange(start, end)
    requires !Stuck(Home(root, m, keys), start, end)
    ensures Wanted(Home(root, m, keys), start, end) <==> Reaches(Home(root, m, keys), root, keys, start, end)
  {
    hide Wanted, Values, StartOf, EndOf, Reaches, Stuck;
    var path := Home(root, m, keys);
    ParseInvertsPath(root, m, keys);
    StuckAtTheEnd(path, m, keys, start, end);
    if Bounded(start, end) {
      if Wanted(path, start, end) { WantedIsReached(root, m, keys, start, end); }
      if Reaches(path, root, keys, start, end) { ReachedIsWanted(path, root, keys, start, end); }
    } else {
      UnboundedIsReached(root, m, keys, start, end);
    }
  }

  /**
   Pruning is tight: of the directories written this way, exactly those are kept to which some moment of the range
   is written, each as often as it is listed.
   */
  lemma PruningIsTight(listing: seq<Path>, root: Path, m: Moment, keys: seq<Key>, start: Option<Moment>,
        end: Option<Moment>)
    requires PlainRoot(root) && Valid(m) && Prefix(keys) && IsRange(start, end) && !AnyStuck(listing, start, end)
    requires Home(root, m, keys) in listing
    ensures var path := Home(root, m, keys);
            multiset(Kept(listing, start, end))[path]
            == if Reaches(path, root, keys, start, end) then multiset(listing)[path] else 0
  {
    hide Wanted, Kept, Values, StartOf, EndOf, Reaches, Stuck;
    var path := Home(root, m, keys);
    assert !Stuck(path, start, end);
    KeptAsListed(listing, start, end, path);
    WantedMeans(root, m, keys, start, end);
  }

  lemma UnboundedIsReached(root: Path, m: Moment, keys: seq<Key>, start: Option<Moment>, end: Option<Moment>)
    requires Valid(m) && Prefix(keys) && !Bounded(start, end)
    ensures Wanted(Home(root, m, keys), start, end) && Reaches(Home(root, m, keys), root, keys, start, end)
  {
    assert ReachesAt(Home(root, m, keys), root, keys, start, end, m);
  }

  lemma WantedBySides(path: Path, start: Option<Moment>, end: Option<Moment>)
    requires !Stuck(path, start, end)
    ensures Wanted(path, start, end) <==> Wanted(path, start, None) && Wanted(path, None, end)
    ensures !Stuck(path, start, None) && !Stuck(path, None, end)
  {
    hide Values, StartOf, EndOf, Instant;
  }

  /**
   For any two bounds, in order or not, a directory is kept exactly when some moment written there is not before the
   start and some moment written there is not after the end.
   */
  lemma PruningBySides(listing: seq<Path>, root: Path, m: Moment, keys: seq<Key>, start: Option<Moment>,
        end: Option<Moment>)
    requires PlainRoot(root) && Valid(m) && Prefix(keys) && !AnyStuck(listing, start, end)
    requires (start.Some? ==> Valid(start.value)) && (end.Some? ==> Valid(end.value))
    requires Home(root, m, keys) in listing
    ensures var path := Home(root, m, keys);
            multiset(Kept(listing, start, end))[path] ==
              if Reaches(path, root, keys, start, None) && Reaches(path, root, keys, None, end)
              then multiset(listing)[path] else 0
  {
    hide Wanted, Kept, Values, StartOf, EndOf, Reaches, Stuck, Home, PlainRoot, Valid;
    var path := Home(root, m, keys);
    assert !Stuck(path, start, end);
    KeptAsListed(listing, start, end, path);
    WantedBySides(path, start, end);
    WantedMeans(root, m, keys, start, None);
    WantedMeans(root, m, keys, None, end);
  }

  /** A directory whose name has no year is always kept. */
  lemma UndatedIsKept(listing: seq<Path>, start: Option<Moment>, end: Option<Moment>, path: Path)
    requires path in listing && Year !in Values(path.parts)
    ensures path in Kept(listing, start, end)
  {
    hide Values, Kept;
    KeptAsListed(listing, start, end, path);
  }
}
