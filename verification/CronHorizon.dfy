/** What the horizon of the cron search reaches, on clocks with one offset: every date that each year has, and a leap
    day only if one is within a year. */
module CronHorizon {
  import opened Calendar
  import opened CronSearch
  import opened Options

  function FixedClock(offset: int): Clock { t => ZoneWall(u => offset, t) }

  /** Matches this minute of this date, whatever the year and the weekday. */
  ghost predicate RunsAt(m: CronMatcher, month: int, day: int, hour: int, minute: int)
    requires 0 <= hour <= 23 && 0 <= minute <= 59
  {
    forall year, dow :: Matches(m, Wall(year, month, day, dow, hour, minute))
  }

  /** That minute in a year, in minutes of local time. */
  function MinuteIn(year: int, month: int, day: int, hour: int, minute: int): int
    requires 1 <= month <= 12
  {
    DayNumber(Date(year, month, day)) * 1440 + hour * 60 + minute
  }

  function NewYear(year: int): int { DayNumber(Date(year, 1, 1)) }

  lemma YearsLast(year: int)
    ensures NewYear(year + 1) == NewYear(year) + if IsLeapYear(year) then 366 else 365
  {
    LeapDaysOf(year);
  }

  lemma WithinYear(d: Date)
    requires ValidDate(d)
    ensures NewYear(d.year) <= DayNumber(d) < NewYear(d.year + 1)
  {
    LeapDaysOf(d.year);
  }

  /** A date other than a leap day comes again after a year of at most 366 days. */
  lemma ComesAgain(year: int, month: int, day: int)
    requires 1 <= month <= 12
    ensures DayNumber(Date(year + 1, month, day)) <= DayNumber(Date(year, month, day)) + 366
  {
    LeapDaysOf(year);
    LeapDaysOf(year + 1);
  }

  lemma ShownAt(offset: int, year: int, month: int, day: int, hour: int, minute: int)
    requires ValidDate(Date(year, month, day)) && 0 <= hour <= 23 && 0 <= minute <= 59
    ensures
      var (w, n) := (FixedClock(offset)(MinuteIn(year, month, day, hour, minute) - offset),
        DayNumber(Date(year, month, day)));
      w == Wall(year, month, day, WeekdayOf(n), hour, minute)
  {
    hide DateOf, DayNumber;
    DateOfDayNumber(Date(year, month, day));
    var minuteOfDay := hour * 60 + minute;
    DayOfMinute(MinuteIn(year, month, day, hour, minute), DayNumber(Date(year, month, day)));
    assert minuteOfDay / 60 == hour && minuteOfDay % 60 == minute;
  }

  /** The year whose date comes next after a minute of local time, and how soon. */
  lemma NextYearOf(local: int, month: int, day: int, hour: int, minute: int) returns (year: int)
    requires 1 <= month <= 12 && 1 <= day <= DaysInMonth(1970, month) && 0 <= hour <= 23 && 0 <= minute <= 59
    ensures ValidDate(Date(year, month, day))
    ensures local <= MinuteIn(year, month, day, hour, minute) < local + 366 * 1440
  {
    var n := local / 1440;
    var d := DateOf(n);
    hide DateOf, DayNumber, IsLeapYear;
    DayNumberOfDate(n);
    WithinYear(d);
    YearsLast(d.year);
    ValidEachYear(month, day);
    WithinYear(Date(d.year, month, day));
    WithinYear(Date(d.year + 1, month, day));
    ComesAgain(d.year, month, day);
    year := if local <= MinuteIn(d.year, month, day, hour, minute) then d.year else d.year + 1;
  }

  lemma ValidEachYear(month: int, day: int)
    requires 1 <= month <= 12 && 1 <= day <= DaysInMonth(1970, month)
    ensures forall year :: ValidDate(Date(year, month, day))
  {
  }

  /** A schedule for a date that every year has is never without a next run. */
  lemma YearlyRunIsFound(m: CronMatcher, afterMs: int, offset: int, month: int, day: int, hour: int, minute: int)
    requires 1 <= month <= 12 && 1 <= day <= DaysInMonth(1970, month) && 0 <= hour <= 23 && 0 <= minute <= 59
    requires RunsAt(m, month, day, hour, minute)
    ensures ExpectedRun(m, afterMs, FixedClock(offset)).Some?
  {
    hide FirstMatch, Matches, FixedClock, MinuteIn;
    var first := afterMs / MINUTE_MS + 1;
    var year := NextYearOf(first + offset, month, day, hour, minute);
    ShownAt(offset, year, month, day, hour, minute);
    var t := MinuteIn(year, month, day, hour, minute) - offset;
    assert first <= t < first + MAX_CRON_SEARCH_MINUTES && Matches(m, FixedClock(offset)(t));
  }

  /** Matches the minute only on 29 February. */
  function LeapDayMatcher(hour: int, minute: int): CronMatcher {
    CronMatcher({minute}, {hour}, {29}, {2}, {0, 1, 2, 3, 4, 5, 6}, true, false)
  }

  ghost predicate LeapDayWithin(local: int, hour: int, minute: int) {
    exists year :: IsLeapYear(year) && local <= MinuteIn(year, 2, 29, hour, minute) < local + 366 * 1440
  }

  /** A schedule for leap days has a next run exactly if a leap day is within 366 days; else the search reports none. */
  lemma LeapDayIsFoundIff(afterMs: int, offset: int, hour: int, minute: int)
    requires 0 <= hour <= 23 && 0 <= minute <= 59
    ensures ExpectedRun(LeapDayMatcher(hour, minute), afterMs, FixedClock(offset)).Some? <==>
      LeapDayWithin(afterMs / 60_000 + 1 + offset, hour, minute)
  {
    hide DateOf, DayNumber, FixedClock;
    var m, first := LeapDayMatcher(hour, minute), afterMs / MINUTE_MS + 1;
    var run := FirstMatch(m, FixedClock(offset), first, first + MAX_CRON_SEARCH_MINUTES);
    hide FirstMatch;
    if run.Some? {
      ShownOnLeapDay(offset, run.value, hour, minute);
    }
    if LeapDayWithin(first + offset, hour, minute) {
      var year :| IsLeapYear(year) &&
        first + offset <= MinuteIn(year, 2, 29, hour, minute) < first + offset + 366 * 1440;
      ShownAt(offset, year, 2, 29, hour, minute);
      assert Matches(m, FixedClock(offset)(MinuteIn(year, 2, 29, hour, minute) - offset));
    }
  }

  lemma ShownOnLeapDay(offset: int, t: int, hour: int, minute: int)
    requires 0 <= hour <= 23 && 0 <= minute <= 59 && Matches(LeapDayMatcher(hour, minute), FixedClock(offset)(t))
    ensures exists year :: IsLeapYear(year) && MinuteIn(year, 2, 29, hour, minute) == t + offset
  {
    hide DateOf, DayNumber, IsLeapYear;
    var n := (t + offset) / 1440;
    DayNumberOfDate(n);
    var w := FixedClock(offset)(t);
    assert DateOf(n) == Date(w.year, 2, 29) && w.hour == hour && w.minute == minute;
    assert ValidDate(Date(w.year, 2, 29));
    assert t + offset == n * 1440 + hour * 60 + minute;
  }

  /** From the epoch on there is none: 1970 and 1971 have no leap day, and that of 1972 is too far. */
  lemma LeapDayIsMissed()
    ensures ExpectedRun(LeapDayMatcher(0, 0), 0, FixedClock(0)) == None
  {
    hide ExpectedRun, LeapDayMatcher, FixedClock;
    LeapDayIsFoundIff(0, 0, 0, 0);
    forall year | IsLeapYear(year)
      ensures !(1 <= MinuteIn(year, 2, 29, 0, 0) < 1 + 366 * 1440)
    {
      NoLeapDayAtFirst(year);
    }
  }

  lemma NoLeapDayAtFirst(year: int)
    requires IsLeapYear(year)
    ensures DayNumber(Date(year, 2, 29)) < 0 || DayNumber(Date(year, 2, 29)) >= 789
  {
    if year <= 1969 {
      LeapDaysUpTo(year, 1969);
    } else {
      assert year != 1970 && year != 1971;
      LeapDaysUpTo(1972, year);
    }
  }

  lemma {:induction false} LeapDaysUpTo(a: int, b: int)
    requires a <= b
    ensures LeapDays(a) <= LeapDays(b) && LeapDays(a - 1) <= LeapDays(b - 1)
    decreases b - a
  {
    if a < b {
      LeapDaysOf(b);
      LeapDaysOf(b - 1);
      LeapDaysUpTo(a, b - 1);
    }
  }
}
