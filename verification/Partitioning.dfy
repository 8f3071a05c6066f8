/**
 The partition index (app/storage/partitioning.py:42-136): directory names made from timestamps, read
 back, and used to skip directories that cannot hold a row of the wanted range.

 A path is the sequence of its parts.  The listing that `iter_partitions` finds is a parameter.
 */
module Partitioning {
  import opened Options
  import opened Calendar

  datatype Key = Year | Month | Day | Hour | Unsupported(name: string)

  datatype Path = Path(parts: seq<string>)

  // ---------- Writing a directory name ----------

  function Name(key: Key): string {
    match key
    case Year => "year="
    case Month => "month="
    case Day => "day="
    case Hour => "hour="
    case Unsupported(name) => name
  }

  function Value(m: Moment, key: Key): (r: nat)
    requires Valid(m) && !key.Unsupported?
    ensures r < if key == Year then 10000 else 100
  {
    match key
    case Year => m.year
    case Month => m.month
    case Day => m.day
    case Hour => m.hour
  }

  function Digit(d: nat): char
    requires d < 10
  {
    '0' + d as char
  }

  /** `n` in decimal, padded with zeros to at least `width` digits. */
  function Padded(n: nat, width: nat): string
    decreases width, n
  {
    if width == 0 && n == 0 then "" else Padded(n / 10, if width == 0 then 0 else width - 1) + [Digit(n % 10)]
  }

  /** `partition_values`: the zero-padded text of one key. */
  function Text(m: Moment, key: Key): string
    requires Valid(m) && !key.Unsupported?
  {
    Padded(Value(m, key), if key == Year then 4 else 2)
  }

  function Segment(m: Moment, key: Key): string
    requires Valid(m) && !key.Unsupported?
  {
    Name(key) + Text(m, key)
  }

  predicate Supported(keys: seq<Key>) {
    forall k :: k in keys ==> !k.Unsupported?
  }

  function Segments(m: Moment, keys: seq<Key>): seq<string>
    requires Valid(m) && Supported(keys)
  {
    if keys == [] then [] else Segments(m, keys[..|keys| - 1]) + [Segment(m, keys[|keys| - 1])]
  }

  /** Where a row stamped `m` is written. */
  function Home(root: Path, m: Moment, keys: seq<Key>): Path
    requires Valid(m) && Supported(keys)
  {
    Path(root.parts + Segments(m, keys))
  }

  method PartitionPath(root: Path, moment: Moment, keys: seq<Key>) returns (r: Attempt<Path>)
    requires Valid(moment)
    ensures r == if Supported(keys) then Returns(Home(root, moment, keys)) else Raises
  {
    var parts := root.parts;
    for i := 0 to |keys|
      invariant Supported(keys[..i]) && parts == root.parts + Segments(moment, keys[..i])
    {
      assert keys[..i + 1] == keys[..i] + [keys[i]];
      if keys[i].Unsupported? { return Raises; }
      assert keys[..i + 1][..i] == keys[..i];
      parts := parts + [Segment(moment, keys[i])];
    }
    assert keys[..|keys|] == keys;
    return Returns(Path(parts));
  }

  // ---------- Reading it back ----------

  predicate DigitField(s: string) {
    2 <= |s| <= 4 && forall i :: 0 <= i < |s| ==> '0' <= s[i] <= '9'
  }

  function ReadDecimal(s: string): nat
    requires forall i :: 0 <= i < |s| ==> '0' <= s[i] <= '9'
  {
    if s == "" then 0 else 10 * ReadDecimal(s[..|s| - 1]) + (s[|s| - 1] - '0') as nat
  }

  /** `$` also matches before one newline at the end. */
  function Chomped(part: string): string {
    if part != "" && part[|part| - 1] == '\n' then part[..|part| - 1] else part
  }

  function ReadField(text: string, key: Key): Option<nat> {
    var n := |Name(key)|;
    if Name(key) <= text && DigitField(text[n..]) then Some(ReadDecimal(text[n..])) else None
  }

  function ReadSegment(part: string): Option<(Key, nat)> {
    var text := Chomped(part);
    if ReadField(text, Year).Some? then Some((Year, ReadField(text, Year).value))
    else if ReadField(text, Month).Some? then Some((Month, ReadField(text, Month).value))
    else if ReadField(text, Day).Some? then Some((Day, ReadField(text, Day).value))
    else if ReadField(text, Hour).Some? then Some((Hour, ReadField(text, Hour).value))
    else None
  }

  /** The value each key has in a path; a later part wins. */
  function Values(parts: seq<string>): map<Key, nat> {
    if parts == [] then map[]
    else
      var before, found := Values(parts[..|parts| - 1]), ReadSegment(parts[|parts| - 1]);
      if found.Some? then before[found.value.0 := found.value.1] else before
  }

  method ParsePartition(path: Path) returns (found: map<Key, nat>)
    ensures found == Values(path.parts)
  {
    found := map[];
    for i := 0 to |path.parts|
      invariant found == Values(path.parts[..i])
    {
      assert path.parts[..i + 1][..i] == path.parts[..i];
      var seen := ReadSegment(path.parts[i]);
      if seen.Some? { found := found[seen.value.0 := seen.value.1]; }
    }
    assert path.parts[..|path.parts|] == path.parts;
  }

  lemma {:induction false} PaddedReadsBack(n: nat, width: nat)
    ensures var s := Padded(n, width); (forall i :: 0 <= i < |s| ==> '0' <= s[i] <= '9') && ReadDecimal(s) == n
    decreases width, n
  {
    if !(width == 0 && n == 0) {
      PaddedReadsBack(n / 10, if width == 0 then 0 else width - 1);
      var s := Padded(n, width);
      assert s[..|s| - 1] == Padded(n / 10, if width == 0 then 0 else width - 1);
    }
  }

  lemma PaddedLength(n: nat)
    ensures n < 100 ==> |Padded(n, 2)| == 2
    ensures n < 10000 ==> |Padded(n, 4)| == 4
  {
    assert Padded(0, 0) == "";
    var a := n / 10;
    var b := a / 10;
    var c := b / 10;
    assert n < 100 ==> Padded(a, 1) == Padded(b, 0) + [Digit(a % 10)];
    assert n < 10000 ==> Padded(c, 1) == Padded(c / 10, 0) + [Digit(c % 10)];
    assert n < 10000 ==> |Padded(b, 2)| == 2 && |Padded(a, 3)| == 3;
  }

  /** The last decimal digit of a number. */
  function LastDigit(n: nat): char {
    "0123456789"[n % 10]
  }

  lemma PaddedStep(n: nat, width: nat)
    requires width >= 1
    ensures Padded(n, width) == Padded(n / 10, width - 1) + [LastDigit(n)] && Padded(0, 0) == ""
  {
  }

  lemma TwoDigits(n: nat)
    requires n < 100
    ensures Padded(n, 2) == [LastDigit(n / 10), LastDigit(n)]
  {
    hide Padded, LastDigit;
    PaddedStep(n, 2);
    PaddedStep(n / 10, 1);
  }

  lemma FourDigits(n: nat)
    requires n < 10000
    ensures Padded(n, 4) == [LastDigit(n / 1000), LastDigit(n / 100), LastDigit(n / 10), LastDigit(n)]
  {
    hide Padded, LastDigit;
    PaddedStep(n, 4);
    PaddedStep(n / 10, 3);
    assert n / 10 / 10 == n / 100 && n / 100 / 10 == n / 1000;
    TwoDigits(n / 100);
  }

  lemma SegmentsStep(m: Moment, keys: seq<Key>, key: Key)
    requires Valid(m) && Supported(keys) && !key.Unsupported?
    ensures Segments(m, keys + [key]) == Segments(m, keys) + [Segment(m, key)] && Segments(m, []) == []
  {
    assert (keys + [key])[..|keys|] == keys;
  }

  /** The four parts of a path are spelled as in `year=2026/month=08/day=07/hour=23`. */
  lemma DirectoryName(root: Path, m: Moment)
    requires Valid(m)
    ensures Home(root, m, [Year, Month, Day, Hour]).parts == root.parts + [
              "year=" + [LastDigit(m.year / 1000), LastDigit(m.year / 100), LastDigit(m.year / 10), LastDigit(m.year)],
              "month=" + [LastDigit(m.month / 10), LastDigit(m.month)],
              "day=" + [LastDigit(m.day / 10), LastDigit(m.day)],
              "hour=" + [LastDigit(m.hour / 10), LastDigit(m.hour)]]
  {
    hide Padded, LastDigit, Segments;
    FourDigits(m.year);
    TwoDigits(m.month);
    TwoDigits(m.day);
    TwoDigits(m.hour);
    SegmentsStep(m, [Year, Month, Day], Hour);
    SegmentsStep(m, [Year, Month], Day);
    SegmentsStep(m, [Year], Month);
    SegmentsStep(m, [], Year);
    assert [Year, Month, Day, Hour] == [Year, Month, Day] + [Hour] && [Year, Month, Day] == [Year, Month] + [Day];
    assert [Year, Month] == [Year] + [Month] && [Year] == [] + [Year];
    assert Segments(m, [Year, Month, Day, Hour])
        == [Segment(m, Year), Segment(m, Month), Segment(m, Day), Segment(m, Hour)];
  }

  lemma FieldReadsBack(m: Moment, key: Key)
    requires Valid(m) && !key.Unsupported?
    ensures ReadField(Segment(m, key), key) == Some(Value(m, key)) && Chomped(Segment(m, key)) == Segment(m, key)
  {
    hide Padded, Value, ReadDecimal;
    var v, width := Value(m, key), if key == Year then 4 else 2;
    PaddedReadsBack(v, width);
    PaddedLength(v);
    NamedReadsBack(key, Padded(v, width));
  }

  lemma NamedReadsBack(key: Key, digits: string)
    requires DigitField(digits)
    ensures ReadField(Name(key) + digits, key) == Some(ReadDecimal(digits))
    ensures Chomped(Name(key) + digits) == Name(key) + digits
  {
    hide ReadDecimal, Name;
    var text := Name(key) + digits;
    assert text[|Name(key)|..] == digits;
    assert text[|text| - 1] == digits[|digits| - 1];
  }

  lemma OtherFieldsDiffer(text: string, key: Key, other: Key)
    requires !key.Unsupported? && !other.Unsupported? && key != other && Name(key) <= text
    ensures ReadField(text, other) == None
  {
    hide DigitField, ReadDecimal;
    assert Name(key)[0] == text[0];
    assert Name(other)[0] != text[0];
  }

  lemma SegmentReadsBack(m: Moment, key: Key)
    requires Valid(m) && !key.Unsupported?
    ensures ReadSegment(Segment(m, key)) == Some((key, Value(m, key)))
  {
    hide Name, Padded, ReadField, Chomped;
    FieldReadsBack(m, key);
    forall other: Key | other != key && !other.Unsupported? ensures ReadField(Segment(m, key), other) == None {
      OtherFieldsDiffer(Segment(m, key), key, other);
    }
  }

  /** `part` is a key, `=` and two to four digits that read as `n`, up to one newline. */
  ghost predicate Spells(part: string, key: Key, n: nat) {
    exists digits :: SpellsBy(part, key, n, digits)
  }

  predicate SpellsBy(part: string, key: Key, n: nat, digits: string) {
    && DigitField(digits) && ReadDecimal(digits) == n
    && (part == Name(key) + digits || part == Name(key) + digits + "\n")
  }

  lemma ChompedEnds(part: string)
    ensures part == Chomped(part) || part == Chomped(part) + "\n"
  {
    if part != "" && part[|part| - 1] == '\n' { assert part == part[..|part| - 1] + [part[|part| - 1]]; }
  }

  lemma SpelledIsRead(part: string, key: Key, n: nat, digits: string)
    requires !key.Unsupported? && SpellsBy(part, key, n, digits)
    ensures ReadSegment(part) == Some((key, n))
  {
    hide Name, ReadDecimal;
    var text := Name(key) + digits;
    NamedReadsBack(key, digits);
    if part != text { assert part[..|part| - 1] == text; }
    forall other: Key | other != key && !other.Unsupported? ensures ReadField(text, other) == None {
      OtherFieldsDiffer(text, key, other);
    }
    hide ReadField;
  }

  lemma ReadIsSpelled(part: string, key: Key, n: nat)
    requires ReadSegment(part) == Some((key, n))
    ensures Spells(part, key, n)
  {
    hide Name, DigitField, ReadDecimal;
    ChompedEnds(part);
    var text, length := Chomped(part), |Name(key)|;
    assert text == Name(key) + text[length..];
    assert SpellsBy(part, key, n, text[length..]);
  }

  /** A part of a path has a value exactly when it spells one. */
  lemma SegmentMeans(part: string, key: Key, n: nat)
    requires !key.Unsupported?
    ensures ReadSegment(part) == Some((key, n)) <==> Spells(part, key, n)
  {
    hide ReadSegment, SpellsBy;
    if ReadSegment(part) == Some((key, n)) { ReadIsSpelled(part, key, n); }
    if digits :| SpellsBy(part, key, n, digits) { SpelledIsRead(part, key, n, digits); }
  }

  predicate PlainRoot(root: Path) {
    forall i :: 0 <= i < |root.parts| ==> ReadSegment(root.parts[i]).None?
  }

  lemma {:induction false} PlainHasNoValues(parts: seq<string>)
    requires PlainRoot(Path(parts))
    ensures Values(parts) == map[]
  {
    if parts != [] {
      assert Path(parts).parts == parts;
      assert forall i :: 0 <= i < |parts| - 1 ==> parts[..|parts| - 1][i] == parts[i];
      PlainHasNoValues(parts[..|parts| - 1]);
    }
  }

  /** The values of a timestamp at some keys. */
  function ValuesOf(m: Moment, keys: seq<Key>): map<Key, nat>
    requires Valid(m) && Supported(keys)
  {
    map k | k in keys :: Value(m, k)
  }

  lemma ValuesStep(parts: seq<string>, part: string)
    ensures Values(parts + [part]) ==
              if ReadSegment(part).Some? then Values(parts)[ReadSegment(part).value.0 := ReadSegment(part).value.1]
                  else Values(parts)
  {
    assert (parts + [part])[..|parts|] == parts;
  }

  lemma ValuesOfStep(m: Moment, keys: seq<Key>, key: Key)
    requires Valid(m) && Supported(keys) && !key.Unsupported?
    ensures Supported(keys + [key]) && ValuesOf(m, keys + [key]) == ValuesOf(m, keys)[key := Value(m, key)]
  {
  }

  lemma HomeStep(root: Path, m: Moment, keys: seq<Key>, key: Key)
    requires Valid(m) && Supported(keys) && Supported(keys + [key])
    ensures Home(root, m, keys + [key]).parts == Home(root, m, keys).parts + [Segment(m, key)]
  {
    assert (keys + [key])[..|keys|] == keys;
    var segment := Segment(m, key);
    assert root.parts + (Segments(m, keys) + [segment]) == root.parts + Segments(m, keys) + [segment];
  }

  /** `parse_partition` inverts `partition_path`: it finds exactly the keys asked for, with the timestamp's values. */
  lemma {:induction false} ParseInvertsPath(root: Path, m: Moment, keys: seq<Key>)
    requires PlainRoot(root) && Valid(m) && Supported(keys)
    ensures Values(Home(root, m, keys).parts) == ValuesOf(m, keys)
    decreases |keys|
  {
    if keys == [] {
      assert Home(root, m, keys).parts == root.parts;
      PlainHasNoValues(root.parts);
    } else {
      var before, last := keys[..|keys| - 1], keys[|keys| - 1];
      assert keys == before + [last];
      ParseInvertsPath(root, m, before);
      SegmentReadsBack(m, last);
      HomeStep(root, m, before, last);
      ValuesStep(Home(root, m, before).parts, Segment(m, last));
      ValuesOfStep(m, before, last);
    }
  }

  // ---------- The span of a partition ----------

  function Get(values: map<Key, nat>, key: Key, default: nat): nat {
    if key in values then values[key] else default
  }

  /** `partition_datetime`: the first moment of the partition, if its path names a year. */
  function StartOf(values: map<Key, nat>): Attempt<Option<Moment>> {
    if Year !in values then Returns(None)
    else
      var m := Moment(values[Year], Get(values, Month, 1), Get(values, Day, 1), Get(values, Hour, 0), 0, 0, 0);
      if Valid(m) then Returns(Some(m)) else Raises
  }

  /** `_partition_end`: the first moment after the partition. */
  function EndOf(start: Moment, values: map<Key, nat>): Attempt<Moment> {
    if Hour in values then Plus(start, HOUR)
    else if Day in values then Plus(start, DAY)
    else if Month in values then
      var late := Plus(start.(day := 28), 4 * DAY);
      if late.Returns? then Returns(late.value.(day := 1)) else Raises
    else
      var next := start.(year := start.year + 1);
      if Valid(next) then Returns(next) else Raises
  }

  /** Whether a partition overlaps `[start, end]`. */
  function Overlaps(values: map<Key, nat>, start: Option<Moment>, end: Option<Moment>): Attempt<bool> {
    var first := StartOf(values);
    if first.Raises? then Raises
    else if first.value.None? then Returns(true)
    else
      var after := EndOf(first.value.value, values);
      if after.Raises? then Raises
      else Returns(!(start.Some? && Instant(after.value) <= Instant(start.value))
                && !(end.Some? && Instant(first.value.value) > Instant(end.value)))
  }

  predicate Bounded(start: Option<Moment>, end: Option<Moment>) {
    start.Some? || end.Some?
  }

  /** Pruning cannot go on at a path: its name is not a date, or a bound is given and its span overflows. */
  predicate Stuck(path: Path, start: Option<Moment>, end: Option<Moment>) {
    StartOf(Values(path.parts)).Raises? || (Bounded(start, end) && Overlaps(Values(path.parts), start, end).Raises?)
  }

  predicate Wanted(path: Path, start: Option<Moment>, end: Option<Moment>) {
    Bounded(start, end) ==> Overlaps(Values(path.parts), start, end) == Returns(true)
  }

  function Kept(listing: seq<Path>, start: Option<Moment>, end: Option<Moment>): seq<Path> {
    if listing == [] then []
    else
      var before, last := Kept(listing[..|listing| - 1], start, end), listing[|listing| - 1];
      before + if Wanted(last, start, end) then [last] else []
  }

  predicate AnyStuck(listing: seq<Path>, start: Option<Moment>, end: Option<Moment>) {
    exists path :: path in listing && Stuck(path, start, end)
  }

  lemma {:induction false} UnboundedKeepsAll(listing: seq<Path>)
    ensures Kept(listing, None, None) == listing
  {
    hide Overlaps, Values;
    if listing != [] { UnboundedKeepsAll(listing[..|listing| - 1]); }
  }

  lemma KeptStep(listing: seq<Path>, i: nat, start: Option<Moment>, end: Option<Moment>)
    requires i < |listing|
    ensures Kept(listing[..i + 1], start, end)
            == Kept(listing[..i], start, end) + if Wanted(listing[i], start, end) then [listing[i]] else []
  {
    assert listing[..i + 1][..i] == listing[..i];
  }

  /** One round of the pruning loop: names without a year are always candidates. */
  method SpanOverlaps(partition: Path, start: Option<Moment>, end: Option<Moment>) returns (r: Attempt<bool>)
    ensures r == Overlaps(Values(partition.parts), start, end)
  {
    var values := ParsePartition(partition);
    var moment := StartOf(values);
    if moment.Raises? { return Raises; }
    if moment.value.None? { return Returns(true); }
    var after := EndOf(moment.value.value, values);
    if after.Raises? { return Raises; }
    if start.Some? && Instant(after.value) <= Instant(start.value) { return Returns(false); }
    if end.Some? && Instant(moment.value.value) > Instant(end.value) { return Returns(false); }
    return Returns(true);
  }

  /** Sorting the listing reads every name as a date; pruning then reads each again. */
  method PrunePartitions(listing: seq<Path>, start: Option<Moment>, end: Option<Moment>) returns (r: Attempt<seq<Path>>)
    ensures r == if AnyStuck(listing, start, end) then Raises else Returns(Kept(listing, start, end))
  {
    hide Values, Overlaps, StartOf, EndOf;
    for i := 0 to |listing|
      invariant forall j :: 0 <= j < i ==> !StartOf(Values(listing[j].parts)).Raises?
    {
      var values := ParsePartition(listing[i]);
      if StartOf(values).Raises? {
        assert listing[i] in listing && Stuck(listing[i], start, end);
        return Raises;
      }
    }
    if start.None? && end.None? {
      UnboundedKeepsAll(listing);
      return Returns(listing);
    }
    var selected := [];
    for i := 0 to |listing|
      invariant forall j :: 0 <= j < i ==> !Stuck(listing[j], start, end)
      invariant selected == Kept(listing[..i], start, end)
    {
      KeptStep(listing, i, start, end);
      var overlaps := SpanOverlaps(listing[i], start, end);
      if overlaps.Raises? {
        assert listing[i] in listing && Stuck(listing[i], start, end);
        return Raises;
      }
      if overlaps.value { selected := selected + [listing[i]]; }
    }
    assert listing[..|listing|] == listing;
    return Returns(selected);
  }

  // ---------- A row lies in the span of its home ----------

  predicate Prefix(keys: seq<Key>) {
    keys != [] && keys <= [Year, Month, Day, Hour]
  }

  /** The first moment of the partition of `m`. */
  function Floor(m: Moment, depth: nat): Moment {
    Moment(m.year, if depth >= 2 then m.month else 1, if depth >= 3 then m.day else 1,
        if depth >= 4 then m.hour else 0, 0, 0, 0)
  }

  /** The partition of `m` is the last before year 10000. */
  predicate AtTheEnd(m: Moment, depth: nat) {
    m.year == 9999 && (depth >= 2 ==> m.month == 12) && (depth >= 3 ==> m.day == 31) && (depth >= 4 ==> m.hour == 23)
  }

  lemma StartIsFloor(m: Moment, keys: seq<Key>)
    requires Valid(m) && Prefix(keys)
    ensures StartOf(ValuesOf(m, keys)) == Returns(Some(Floor(m, |keys|)))
    ensures Valid(Floor(m, |keys|)) && Instant(Floor(m, |keys|)) <= Instant(m)
  {
    var floor := Floor(m, |keys|);
    assert keys[0] == Year && (|keys| >= 2 ==> keys[1] == Month) && (|keys| >= 3 ==> keys[2] == Day)
        && (|keys| >= 4 ==> keys[3] == Hour);
    MonthsInOrder(m.year, 1, m.month);
  }

  lemma YearEnds(m: Moment)
    requires Valid(m)
    ensures var end := EndOf(Floor(m, 1), ValuesOf(m, [Year]));
            if AtTheEnd(m, 1) then end.Raises? else end.Returns? && Instant(m) < Instant(end.value)
  {
    DayOfYearBounds((m.year, m.month, m.day));
    TimeOfDayRange(m);
  }

  lemma MonthEnds(m: Moment)
    requires Valid(m)
    ensures var end := EndOf(Floor(m, 2), ValuesOf(m, [Year, Month]));
            if AtTheEnd(m, 2) then end.Raises? else end.Returns? && Instant(m) < Instant(end.value)
  {
    var floor := Floor(m, 2);
    MonthEnd(floor);
    TimeOfDayRange(m);
    if !AtTheEnd(m, 2) {
      NextMonthStart(floor);
      assert EndOf(floor, ValuesOf(m, [Year, Month])) == Returns(NextMonth(floor));
    }
  }

  lemma LastDate(m: Moment)
    requires Valid(m)
    ensures Ordinal(m.year, m.month, m.day) == LAST_DAY - 1 <==> m.year == 9999 && m.month == 12 && m.day == 31
  {
    NextDayFromTheEnd();
    if Ordinal(m.year, m.month, m.day) == LAST_DAY - 1 { OrdinalInjective((m.year, m.month, m.day), (9999, 12, 31)); }
  }

  lemma NextDayFromTheEnd()
    ensures Ordinal(9999, 12, 31) == LAST_DAY - 1
  {
    MonthsMakeAYear(9999);
    assert DaysBeforeMonth(9999, 13) == DaysBeforeMonth(9999, 12) + 31;
    assert DaysBeforeYear(10000) == LAST_DAY;
  }

  /** The span of `length` that starts at `floor` and holds `m` ends after `m`, or past the end of time. */
  lemma SpanEnds(floor: Moment, m: Moment, length: int)
    requires Instant(floor) <= Instant(m) < Instant(floor) + length && 0 <= Instant(floor) && length > 0
    ensures var end := Plus(floor, length);
            if Instant(floor) + length >= END_OF_TIME then end.Raises?
            else end.Returns? && Instant(m) < Instant(end.value)
  {
    hide Instant, At, Valid;
    if Instant(floor) + length < END_OF_TIME { InstantOfAt(Instant(floor) + length); }
  }

  lemma DayEnds(m: Moment)
    requires Valid(m)
    ensures var end := EndOf(Floor(m, 3), ValuesOf(m, [Year, Month, Day]));
            if AtTheEnd(m, 3) then end.Raises? else end.Returns? && Instant(m) < Instant(end.value)
  {
    LastDate(m);
    TimeOfDayRange(m);
    OrdinalRange((m.year, m.month, m.day));
    SpanEnds(Floor(m, 3), m, DAY);
  }

  lemma HourEnds(m: Moment)
    requires Valid(m)
    ensures var end := EndOf(Floor(m, 4), ValuesOf(m, [Year, Month, Day, Hour]));
            if AtTheEnd(m, 4) then end.Raises? else end.Returns? && Instant(m) < Instant(end.value)
  {
    LastDate(m);
    OrdinalRange((m.year, m.month, m.day));
    SpanEnds(Floor(m, 4), m, HOUR);
  }

  /** A moment lies in its partition: from its start up to, and not including, its end. */
  lemma SpanHolds(m: Moment, keys: seq<Key>)
    requires Valid(m) && Prefix(keys)
    ensures StartOf(ValuesOf(m, keys)) == Returns(Some(Floor(m, |keys|))) && Instant(Floor(m, |keys|)) <= Instant(m)
    ensures var end := EndOf(Floor(m, |keys|), ValuesOf(m, keys));
            if AtTheEnd(m, |keys|) then end.Raises? else end.Returns? && Instant(m) < Instant(end.value)
  {
    StartIsFloor(m, keys);
    if |keys| == 1 {
      assert keys == [Year];
      YearEnds(m);
    } else if |keys| == 2 {
      assert keys == [Year, Month];
      MonthEnds(m);
    } else if |keys| == 3 {
      assert keys == [Year, Month, Day];
      DayEnds(m);
    } else {
      assert keys == [Year, Month, Day, Hour];
      HourEnds(m);
    }
  }

  // ---------- Pruning agrees with the full scan ----------

  datatype Row = Row(timestamp: Moment, data: string)

  type Table = map<Path, seq<Row>>

  predicate InRange(row: Row, start: Option<Moment>, end: Option<Moment>) {
    && (start.Some? ==> Instant(start.value) <= Instant(row.timestamp))
    && (end.Some? ==> Instant(row.timestamp) <= Instant(end.value))
  }

  function Matching(rows: seq<Row>, start: Option<Moment>, end: Option<Moment>): (r: seq<Row>)
    ensures (forall row :: row in rows ==> !InRange(row, start, end)) ==> r == []
  {
    if rows == [] then []
    else
      var before, last := Matching(rows[..|rows| - 1], start, end), rows[|rows| - 1];
      before + if InRange(last, start, end) then [last] else []
  }

  /** The rows of `[start, end]` in the given partitions. */
  function Scan(table: Table, paths: seq<Path>, start: Option<Moment>, end: Option<Moment>): seq<Row>
    requires forall path :: path in paths ==> path in table
  {
    if paths == [] then []
    else Scan(table, paths[..|paths| - 1], start, end) + Matching(table[paths[|paths| - 1]], start, end)
  }

  /** Every directory named after a year holds some rows, all of them at home there. */
  ghost predicate WellFiled(table: Table, root: Path, keys: seq<Key>)
    requires Prefix(keys)
  {
    forall path :: path in table && Year in Values(path.parts) ==>
        table[path] != [] && AtHome(table[path], path, root, keys)
  }

  ghost predicate AtHome(rows: seq<Row>, path: Path, root: Path, keys: seq<Key>)
    requires Prefix(keys)
  {
    forall row :: row in rows ==> Valid(row.timestamp) && path == Home(root, row.timestamp, keys)
  }

  lemma OutsideItsSpan(row: Row, keys: seq<Key>, start: Option<Moment>, end: Option<Moment>)
    requires Prefix(keys) && Valid(row.timestamp)
    requires Overlaps(ValuesOf(row.timestamp, keys), start, end) == Returns(false)
    ensures !InRange(row, start, end)
  {
    SpanHolds(row.timestamp, keys);
  }

  lemma UnwantedHasNoMatch(rows: seq<Row>, path: Path, root: Path, keys: seq<Key>, start: Option<Moment>,
        end: Option<Moment>)
    requires PlainRoot(root) && Prefix(keys) && AtHome(rows, path, root, keys)
    requires Overlaps(Values(path.parts), start, end) == Returns(false)
    ensures Matching(rows, start, end) == []
  {
    hide Values, Overlaps, Home;
    forall row | row in rows ensures !InRange(row, start, end) {
      ParseInvertsPath(root, row.timestamp, keys);
      OutsideItsSpan(row, keys, start, end);
    }
  }

  lemma UnwantedIsOutside(path: Path, start: Option<Moment>, end: Option<Moment>)
    requires !Wanted(path, start, end) && !Stuck(path, start, end)
    ensures Overlaps(Values(path.parts), start, end) == Returns(false) && Year in Values(path.parts)
  {
  }

  lemma {:induction false} KeptAreListed(listing: seq<Path>, start: Option<Moment>, end: Option<Moment>)
    ensures forall path :: path in Kept(listing, start, end) ==> path in listing
  {
    if listing != [] { KeptAreListed(listing[..|listing| - 1], start, end); }
  }

  lemma ScanOne(table: Table, paths: seq<Path>, path: Path, start: Option<Moment>, end: Option<Moment>)
    requires (forall p :: p in paths ==> p in table) && path in table
    ensures Scan(table, paths + [path], start, end)
            == Scan(table, paths, start, end) + Matching(table[path], start, end)
  {
    assert (paths + [path])[..|paths|] == paths;
  }

  /**
   Pruning never hides a row: whenever it gives a result, scanning the kept partitions for `[start, end]`
   gives the very rows that scanning every partition gives.
   */
  lemma {:induction false} PruningHidesNothing(
      table: Table, root: Path, keys: seq<Key>, listing: seq<Path>, start: Option<Moment>, end: Option<Moment>)
    requires PlainRoot(root) && Prefix(keys) && WellFiled(table, root, keys)
    requires (forall path :: path in listing ==> path in table) && !AnyStuck(listing, start, end)
    ensures forall path :: path in Kept(listing, start, end) ==> path in table
    ensures Scan(table, Kept(listing, start, end), start, end) == Scan(table, listing, start, end)
    decreases |listing|
  {
    hide Values, Overlaps, StartOf, Home, Wanted, Stuck, Matching, AtHome;
    KeptAreListed(listing, start, end);
    if listing != [] {
      var before, last := listing[..|listing| - 1], listing[|listing| - 1];
      assert last in listing && !Stuck(last, start, end);
      assert !AnyStuck(before, start, end) by {
        assert forall path :: path in before ==> path in listing;
      }
      PruningHidesNothing(table, root, keys, before, start, end);
      if Wanted(last, start, end) {
        ScanOne(table, Kept(before, start, end), last, start, end);
      } else {
        UnwantedIsOutside(last, start, end);
        UnwantedHasNoMatch(table[last], last, root, keys, start, end);
        assert Kept(listing, start, end) == Kept(before, start, end);
        assert Scan(table, listing, start, end) == Scan(table, before, start, end) + [];
      }
    }
  }

  lemma StuckAtTheEnd(path: Path, m: Moment, keys: seq<Key>, start: Option<Moment>, end: Option<Moment>)
    requires Prefix(keys) && Valid(m) && Values(path.parts) == ValuesOf(m, keys)
    ensures Stuck(path, start, end) <==> Bounded(start, end) && AtTheEnd(m, |keys|)
  {
    SpanHolds(m, keys);
  }

  /**
   Over partitions written this way, pruning fails exactly when a bound is given and some directory
   holds the last span of year 9999, whose end no `datetime` can express.
   */
  lemma PruningFailsOnlyAtTheEnd(
      table: Table, root: Path, keys: seq<Key>, listing: seq<Path>, start: Option<Moment>, end: Option<Moment>)
    requires PlainRoot(root) && Prefix(keys) && WellFiled(table, root, keys)
    requires forall path :: path in listing ==> path in table
    ensures AnyStuck(listing, start, end) <==>
              Bounded(start, end) &&
              exists path :: path in listing && Year in Values(path.parts) && AtTheEnd(table[path][0].timestamp, |keys|)
  {
    hide Values;
    forall path | path in listing
      ensures Stuck(path, start, end) <==>
                Bounded(start, end) && Year in Values(path.parts) && AtTheEnd(table[path][0].timestamp, |keys|)
    {
      if Year in Values(path.parts) {
        var m := table[path][0].timestamp;
        assert table[path][0] in table[path];
        ParseInvertsPath(root, m, keys);
        StuckAtTheEnd(path, m, keys, start, end);
      }
    }
  }
}
