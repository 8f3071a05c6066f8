/**
 The calendar of `datetime`: civil moments, the time line they lie on, and addition of a duration
 (used at app/storage/partitioning.py:62-136 and app/core/timeutil.py:168-213).

 A moment is in UTC.  The time line counts microseconds from the start of year 1, and ends with year 9999.
 */
module Calendar {
  import opened Options

  datatype Moment = Moment(year: int, month: int, day: int, hour: int, minute: int, second: int, micro: int)

  const HOUR := 3_600_000_000
  const DAY := 86_400_000_000
  const LAST_DAY := 3_652_059
  const END_OF_TIME := LAST_DAY * DAY

  predicate Leap(year: int) {
    year % 4 == 0 && (year % 100 != 0 || year % 400 == 0)
  }

  function DaysIn(year: int, month: int): (r: int)
    ensures 28 <= r <= 31
  {
    if month == 2 then (if Leap(year) then 29 else 28)
    else if month == 4 || month == 6 || month == 9 || month == 11 then 30
    else 31
  }

  predicate ValidDate(year: int, month: int, day: int) {
    1 <= year <= 9999 && 1 <= month <= 12 && 1 <= day <= DaysIn(year, month)
  }

  predicate ValidTime(m: Moment) {
    0 <= m.hour < 24 && 0 <= m.minute < 60 && 0 <= m.second < 60 && 0 <= m.micro < 1_000_000
  }

  predicate Valid(m: Moment) {
    ValidDate(m.year, m.month, m.day) && ValidTime(m)
  }

  // ---------- The time line ----------

  function DaysBeforeYear(year: int): int {
    var y := year - 1;
    y * 365 + y / 4 - y / 100 + y / 400
  }

  function DaysBeforeMonth(year: int, month: int): int
    decreases month
  {
    if month <= 1 then 0 else DaysBeforeMonth(year, month - 1) + DaysIn(year, month - 1)
  }

  /** The number of days before a date: 0 for the first day of year 1. */
  function Ordinal(year: int, month: int, day: int): int {
    DaysBeforeYear(year) + DaysBeforeMonth(year, month) + day - 1
  }

  function TimeOfDay(m: Moment): int {
    m.hour * HOUR + m.minute * 60_000_000 + m.second * 1_000_000 + m.micro
  }

  function Instant(m: Moment): int {
    Ordinal(m.year, m.month, m.day) * DAY + TimeOfDay(m)
  }

  /** The date `n` days into the time line. */
  function DateOf(n: nat): (r: (int, int, int))
    decreases n
  {
    if n == 0 then (1, 1, 1) else NextDay(DateOf(n - 1))
  }

  function NextDay(d: (int, int, int)): (int, int, int) {
    if d.2 < DaysIn(d.0, d.1) then (d.0, d.1, d.2 + 1)
    else if d.1 < 12 then (d.0, d.1 + 1, 1)
    else (d.0 + 1, 1, 1)
  }

  /** The moment at an instant of the time line. */
  function At(instant: int): Moment
    requires 0 <= instant < END_OF_TIME
  {
    var d, t := DateOf(instant / DAY), instant % DAY;
    Moment(d.0, d.1, d.2, t / HOUR, t % HOUR / 60_000_000, t % 60_000_000 / 1_000_000, t % 1_000_000)
  }

  /** `m + timedelta(microseconds=delta)`, which overflows outside years 1 to 9999. */
  function Plus(m: Moment, delta: int): Attempt<Moment> {
    var i := Instant(m) + delta;
    if 0 <= i < END_OF_TIME then Returns(At(i)) else Raises
  }

  // ---------- Order of dates ----------

  predicate Earlier(a: (int, int, int), b: (int, int, int)) {
    a.0 < b.0 || (a.0 == b.0 && (a.1 < b.1 || (a.1 == b.1 && a.2 < b.2)))
  }

  lemma StepUp(y: int, k: int)
    requires k == 4 || k == 100 || k == 400
    ensures (y + 1) / k == y / k + if (y + 1) % k == 0 then 1 else 0
  {
  }

  lemma LeapDays(year: int)
    ensures (if year % 4 == 0 then 1 else 0) - (if year % 100 == 0 then 1 else 0) + (if year % 400 == 0 then 1 else 0)
         == if Leap(year) then 1 else 0
  {
    if year % 400 == 0 {
      assert year == 100 * (4 * (year / 400));
    }
    if year % 100 == 0 {
      assert year == 4 * (25 * (year / 100));
    }
  }

  /** Long and short months alternate, starting over in August, but for February. */
  lemma MonthLengths(year: int, month: int)
    requires 1 <= month <= 12 && month != 2
    ensures DaysIn(year, month) == if month < 8 then 30 + month % 2 else 31 - month % 2
  {
  }

  lemma CycleOf(y: int, k: int, n: int)
    requires (k == 4 && n == 100) || (k == 100 && n == 4) || (k == 400 && n == 1)
    ensures (y + 400) / k == y / k + n
  {
  }

  /** February takes up what is left of the year, and 97 years in 400 have one day more. */
  lemma YearLengths(year: int)
    ensures DaysIn(year, 2) == 28 + (DaysBeforeYear(year + 1) - DaysBeforeYear(year) - 365)
    ensures DaysBeforeYear(year + 400) - DaysBeforeYear(year) == 400 * 365 + 97
  {
    YearLength(year);
    CycleOf(year - 1, 4, 100);
    CycleOf(year - 1, 100, 4);
    CycleOf(year - 1, 400, 1);
  }

  lemma YearLength(year: int)
    ensures DaysBeforeYear(year + 1) == DaysBeforeYear(year) + if Leap(year) then 366 else 365
  {
    StepUp(year - 1, 4);
    StepUp(year - 1, 100);
    StepUp(year - 1, 400);
    LeapDays(year);
  }

  lemma MonthsMakeAYear(year: int)
    ensures DaysBeforeMonth(year, 13) == if Leap(year) then 366 else 365
  {
    assert DaysBeforeMonth(year, 3) == 31 + DaysIn(year, 2);
    assert DaysBeforeMonth(year, 5) == DaysBeforeMonth(year, 3) + 61;
    assert DaysBeforeMonth(year, 7) == DaysBeforeMonth(year, 5) + 61;
    assert DaysBeforeMonth(year, 9) == DaysBeforeMonth(year, 7) + 62;
    assert DaysBeforeMonth(year, 11) == DaysBeforeMonth(year, 9) + 61;
    assert DaysBeforeMonth(year, 13) == DaysBeforeMonth(year, 11) + 61;
  }

  lemma {:induction false} YearsInOrder(a: int, b: int)
    requires a <= b
    ensures DaysBeforeYear(a) <= DaysBeforeYear(b)
    decreases b - a
  {
    if a < b {
      YearsInOrder(a, b - 1);
      YearLength(b - 1);
    }
  }

  lemma {:induction false} MonthsInOrder(year: int, a: int, b: int)
    requires 1 <= a <= b
    ensures DaysBeforeMonth(year, a) <= DaysBeforeMonth(year, b)
    decreases b - a
  {
    if a < b { MonthsInOrder(year, a, b - 1); }
  }

  lemma DayOfYearBounds(d: (int, int, int))
    requires ValidDate(d.0, d.1, d.2)
    ensures DaysBeforeYear(d.0) <= Ordinal(d.0, d.1, d.2) < DaysBeforeYear(d.0 + 1)
  {
    MonthsInOrder(d.0, 1, d.1);
    MonthsInOrder(d.0, d.1 + 1, 13);
    MonthsMakeAYear(d.0);
    YearLength(d.0);
  }

  lemma EarlierIsBefore(a: (int, int, int), b: (int, int, int))
    requires ValidDate(a.0, a.1, a.2) && ValidDate(b.0, b.1, b.2) && Earlier(a, b)
    ensures Ordinal(a.0, a.1, a.2) < Ordinal(b.0, b.1, b.2)
  {
    if a.0 < b.0 {
      DayOfYearBounds(a);
      DayOfYearBounds(b);
      YearsInOrder(a.0 + 1, b.0);
    } else if a.1 < b.1 {
      MonthsInOrder(a.0, a.1 + 1, b.1);
    }
  }

  lemma OrdinalInjective(a: (int, int, int), b: (int, int, int))
    requires ValidDate(a.0, a.1, a.2) && ValidDate(b.0, b.1, b.2)
    requires Ordinal(a.0, a.1, a.2) == Ordinal(b.0, b.1, b.2)
    ensures a == b
  {
    if Earlier(a, b) { EarlierIsBefore(a, b); }
    else if Earlier(b, a) { EarlierIsBefore(b, a); }
  }

  lemma OrdinalRange(d: (int, int, int))
    requires ValidDate(d.0, d.1, d.2)
    ensures 0 <= Ordinal(d.0, d.1, d.2) < LAST_DAY
  {
    DayOfYearBounds(d);
    YearsInOrder(1, d.0);
    YearsInOrder(d.0 + 1, 10000);
    assert DaysBeforeYear(1) == 0 && DaysBeforeYear(10000) == LAST_DAY;
  }

  // ---------- Moments and instants are the same thing ----------

  lemma {:induction false} DateOfOrdinal(n: nat)
    requires n < LAST_DAY
    ensures var d := DateOf(n); ValidDate(d.0, d.1, d.2) && Ordinal(d.0, d.1, d.2) == n
    decreases n
  {
    if n > 0 {
      DateOfOrdinal(n - 1);
      NextDayFollows(DateOf(n - 1));
    }
  }

  lemma NextDayFollows(d: (int, int, int))
    requires ValidDate(d.0, d.1, d.2) && Ordinal(d.0, d.1, d.2) + 1 < LAST_DAY
    ensures var e := NextDay(d); ValidDate(e.0, e.1, e.2) && Ordinal(e.0, e.1, e.2) == Ordinal(d.0, d.1, d.2) + 1
  {
    if d.2 == DaysIn(d.0, d.1) && d.1 == 12 {
      MonthsMakeAYear(d.0);
      YearLength(d.0);
      assert DaysBeforeYear(10000) == LAST_DAY;
    }
  }

  lemma TimeParts(t: int)
    requires 0 <= t < DAY
    ensures var h, m, s, u := t / HOUR, t % HOUR / 60_000_000, t % 60_000_000 / 1_000_000, t % 1_000_000;
            && 0 <= h < 24 && 0 <= m < 60 && 0 <= s < 60 && 0 <= u < 1_000_000
            && h * HOUR + m * 60_000_000 + s * 1_000_000 + u == t
  {
    var seconds := t / 1_000_000;
    var minutes := seconds / 60;
    assert t / 60_000_000 == minutes && t % 60_000_000 / 1_000_000 == seconds - 60 * minutes;
    assert t / HOUR == minutes / 60 && t % HOUR / 60_000_000 == minutes - 60 * (minutes / 60);
  }

  /** Every instant from year 1 to 9999 is the instant of exactly the moment `At` gives. */
  lemma InstantOfAt(i: int)
    requires 0 <= i < END_OF_TIME
    ensures Valid(At(i)) && Instant(At(i)) == i
  {
    DateOfOrdinal(i / DAY);
    TimeParts(i % DAY);
  }

  lemma TimeInjective(a: Moment, b: Moment)
    requires ValidTime(a) && ValidTime(b) && TimeOfDay(a) == TimeOfDay(b)
    ensures a.hour == b.hour && a.minute == b.minute && a.second == b.second && a.micro == b.micro
  {
  }

  lemma TimeOfDayRange(m: Moment)
    requires ValidTime(m)
    ensures 0 <= TimeOfDay(m) < DAY
  {
  }

  lemma InstantInjective(a: Moment, b: Moment)
    requires Valid(a) && Valid(b) && Instant(a) == Instant(b)
    ensures a == b
  {
    TimeOfDayRange(a);
    TimeOfDayRange(b);
    assert Ordinal(a.year, a.month, a.day) == Instant(a) / DAY == Ordinal(b.year, b.month, b.day);
    OrdinalInjective((a.year, a.month, a.day), (b.year, b.month, b.day));
    TimeInjective(a, b);
  }

  lemma InstantRange(m: Moment)
    requires Valid(m)
    ensures 0 <= Instant(m) < END_OF_TIME
  {
    OrdinalRange((m.year, m.month, m.day));
    TimeOfDayRange(m);
  }

  lemma AtInstant(m: Moment)
    requires Valid(m)
    ensures 0 <= Instant(m) < END_OF_TIME && At(Instant(m)) == m
  {
    InstantRange(m);
    InstantOfAt(Instant(m));
    InstantInjective(At(Instant(m)), m);
  }

  /** Comparing moments field by field, most significant first, compares their instants. */
  lemma FieldOrderIsTimeOrder(a: Moment, b: Moment)
    requires Valid(a) && Valid(b)
    ensures Instant(a) < Instant(b) <==>
              Earlier((a.year, a.month, a.day), (b.year, b.month, b.day)) ||
              ((a.year, a.month, a.day) == (b.year, b.month, b.day) && TimeOfDay(a) < TimeOfDay(b))
  {
    TimeOfDayRange(a);
    TimeOfDayRange(b);
    var d, e := (a.year, a.month, a.day), (b.year, b.month, b.day);
    if Earlier(d, e) { EarlierIsBefore(d, e); }
    else if Earlier(e, d) { EarlierIsBefore(e, d); }
  }

  /** Addition lands on the moment that lies that far along the time line. */
  lemma PlusIs(m: Moment, delta: int, to: Moment)
    requires Valid(to) && Instant(to) == Instant(m) + delta
    ensures Plus(m, delta) == Returns(to)
  {
    AtInstant(to);
  }

  // ---------- The month end ----------

  /** `m` at the first of the next month, at the same time of day. */
  function NextMonth(m: Moment): Moment {
    if m.month < 12 then m.(month := m.month + 1, day := 1) else m.(year := m.year + 1, month := 1, day := 1)
  }

  lemma NextMonthStart(m: Moment)
    requires ValidDate(m.year, m.month, 1) && !(m.year == 9999 && m.month == 12)
    ensures var next := NextMonth(m);
            Ordinal(next.year, next.month, 1) == Ordinal(m.year, m.month, 28) + DaysIn(m.year, m.month) - 27
  {
    if m.month == 12 {
      MonthsMakeAYear(m.year);
      YearLength(m.year);
    }
  }

  lemma LastMonthOverflows(m: Moment)
    requires Valid(m) && m.year == 9999 && m.month == 12
    ensures Plus(m.(day := 28), 4 * DAY) == Raises
  {
    MonthsMakeAYear(9999);
    assert DaysBeforeMonth(9999, 13) == DaysBeforeMonth(9999, 12) + 31;
    assert DaysBeforeYear(10000) == LAST_DAY;
    TimeOfDayRange(m);
    assert Ordinal(9999, 12, 28) == LAST_DAY - 4;
  }

  /**
   Day 28 plus four days, set back to day 1, is the first of the next month for every month, leap
   February and December included; it overflows exactly in December 9999.
   */
  lemma MonthEnd(m: Moment)
    requires Valid(m)
    ensures var moved := Plus(m.(day := 28), 4 * DAY);
            if m.year == 9999 && m.month == 12 then moved == Raises
            else moved.Returns? && moved.value.(day := 1) == NextMonth(m) && Valid(NextMonth(m))
  {
    if m.year == 9999 && m.month == 12 {
      LastMonthOverflows(m);
    } else {
      var next := NextMonth(m).(day := 32 - DaysIn(m.year, m.month));
      NextMonthStart(m);
      PlusIs(m.(day := 28), 4 * DAY, next);
    }
  }
}
