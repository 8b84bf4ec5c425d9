/** The civil (proleptic Gregorian) calendar behind the wall clocks that cron schedules are matched against. */
module Calendar {

  datatype Date = Date(year: int, month: int, day: int)

  predicate IsLeapYear(year: int) {
    year % 4 == 0 && (year % 100 != 0 || year % 400 == 0)
  }

  function DaysInMonth(year: int, month: int): (n: int)
    requires 1 <= month <= 12
    ensures 28 <= n <= 31
  {
    if month == 2 then (if IsLeapYear(year) then 29 else 28)
    else if month in {4, 6, 9, 11} then 30
    else 31
  }

  predicate ValidDate(d: Date) {
    1 <= d.month <= 12 && 1 <= d.day <= DaysInMonth(d.year, d.month)
  }

  /** Calendar order. */
  predicate Before(a: Date, b: Date) {
    || a.year < b.year
    || (a.year == b.year && a.month < b.month)
    || (a.year == b.year && a.month == b.month && a.day < b.day)
  }

  function NextDate(d: Date): (r: Date)
    requires ValidDate(d)
    ensures ValidDate(r) && Before(d, r)
  {
    if d.day < DaysInMonth(d.year, d.month) then d.(day := d.day + 1)
    else if d.month < 12 then Date(d.year, d.month + 1, 1)
    else Date(d.year + 1, 1, 1)
  }

  function PrevDate(d: Date): (r: Date)
    requires ValidDate(d)
    ensures ValidDate(r) && NextDate(r) == d
  {
    if d.day > 1 then d.(day := d.day - 1)
    else if d.month > 1 then Date(d.year, d.month - 1, DaysInMonth(d.year, d.month - 1))
    else Date(d.year - 1, 12, 31)
  }

  /** The date of the n-th day counted from 1 January 1970. */
  function DateOf(n: int): (d: Date)
    ensures ValidDate(d)
    decreases if n < 0 then -n else n
  {
    if n == 0 then Date(1970, 1, 1)
    else if n > 0 then NextDate(DateOf(n - 1))
    else PrevDate(DateOf(n + 1))
  }

  /** Day of the week of the n-th day, 0 for Sunday; 1 January 1970 was a Thursday. */
  function WeekdayOf(n: int): (w: int)
    ensures 0 <= w <= 6
  {
    (n + 4) % 7
  }

  /** The weekdays follow one another, and 1 January 2000 was a Saturday. */
  lemma WeekdaysGoRound(n: int)
    ensures WeekdayOf(n + 1) == if WeekdayOf(n) == 6 then 0 else WeekdayOf(n) + 1
    ensures WeekdayOf(DayNumber(Date(2000, 1, 1))) == 6
  {
    hide DayNumber;
    MillenniumDay();
  }

  lemma MillenniumDay()
    ensures DayNumber(Date(2000, 1, 1)) == 10957
  {
  }

  lemma {:induction false} DatesIncrease(m: int, n: int)
    requires m < n
    ensures Before(DateOf(m), DateOf(n))
    decreases n - m
  {
    assert DateOf(m + 1) == NextDate(DateOf(m));
    if m + 1 < n {
      DatesIncrease(m + 1, n);
    }
  }

  /** Two days that show the same year, month and day of the month are the same day. */
  lemma DateDeterminesDay(m: int, n: int)
    requires DateOf(m) == DateOf(n)
    ensures m == n
  {
    if m < n {
      DatesIncrease(m, n);
    } else if n < m {
      DatesIncrease(n, m);
    }
  }

  // The closed formula -----------------------------------------------------------------------------------------------

  /** Leap days from 1 January of year 1 to the end of a year. */
  function LeapDays(year: int): int { year / 4 - year / 100 + year / 400 }

  /** Days from the first of January to the first of a month, in a common year. */
  const DAYS_BEFORE_MONTH := [0, 31, 59, 90, 120, 151, 181, 212, 243, 273, 304, 334]

  /** The number of a date's day, counted from 1 January 1970. */
  function DayNumber(d: Date): int
    requires 1 <= d.month <= 12
  {
    var leapDay := if d.month > 2 then LeapDays(d.year) else LeapDays(d.year - 1);
    365 * (d.year - 1970) + leapDay - LeapDays(1969) + DAYS_BEFORE_MONTH[d.month - 1] + d.day - 1
  }

  lemma NextDayNumber(d: Date)
    requires ValidDate(d)
    ensures DayNumber(NextDate(d)) == DayNumber(d) + 1
  {
    LeapDaysOf(d.year);
    hide LeapDays, IsLeapYear;
  }

  lemma LeapDaysOf(year: int)
    ensures LeapDays(year) == LeapDays(year - 1) + if IsLeapYear(year) then 1 else 0
  {
    QuarterStep(year);
    CenturyStep(year);
    FourCenturiesStep(year);
    assert year % 100 == 0 ==> year % 4 == 0;
    assert year % 400 == 0 ==> year % 100 == 0;
  }

  lemma QuarterStep(y: int)
    ensures y / 4 == (y - 1) / 4 + if y % 4 == 0 then 1 else 0
  {
  }

  lemma CenturyStep(y: int)
    ensures y / 100 == (y - 1) / 100 + if y % 100 == 0 then 1 else 0
  {
  }

  lemma FourCenturiesStep(y: int)
    ensures y / 400 == (y - 1) / 400 + if y % 400 == 0 then 1 else 0
  {
  }

  /** Counting day by day is the closed formula: every month has its length, and every leap year its day. */
  lemma {:induction false} DayNumberOfDate(n: int)
    ensures DayNumber(DateOf(n)) == n
    decreases if n < 0 then -n else n
  {
    hide DayNumber;
    if n == 0 {
      EpochIsDayNought();
    } else if n > 0 {
      DayNumberOfDate(n - 1);
      NextDayNumber(DateOf(n - 1));
    } else {
      DayNumberOfDate(n + 1);
      NextDayNumber(DateOf(n));
    }
  }

  lemma EpochIsDayNought()
    ensures DayNumber(Date(1970, 1, 1)) == 0
  {
  }

  /** Every valid date is that of its day, and of no other. */
  lemma DateOfDayNumber(d: Date)
    requires ValidDate(d)
    ensures DateOf(DayNumber(d)) == d
  {
    hide DateOf, DayNumber;
    DayNumberOfDate(DayNumber(d));
    SameNumberSameDate(DateOf(DayNumber(d)), d);
  }

  lemma SameNumberSameDate(a: Date, b: Date)
    requires ValidDate(a) && ValidDate(b) && DayNumber(a) == DayNumber(b)
    ensures a == b
  {
    if Before(a, b) {
      EarlierIsLess(a, b);
    } else if Before(b, a) {
      EarlierIsLess(b, a);
    }
  }

  lemma EarlierIsLess(a: Date, b: Date)
    requires ValidDate(a) && ValidDate(b) && Before(a, b)
    ensures DayNumber(a) < DayNumber(b)
  {
    if a.year < b.year {
      hide DayNumber, ValidDate;
      WithinItsYear(a);
      WithinItsYear(b);
      YearsGoOn(a.year, b.year);
    } else {
      LeapDaysOf(a.year);
      hide LeapDays, IsLeapYear;
    }
  }

  lemma WithinItsYear(d: Date)
    requires ValidDate(d)
    ensures 1 <= d.month <= 12
    ensures 365 * (d.year - 1970) + LeapDays(d.year - 1) <= DayNumber(d) + LeapDays(1969)
    ensures DayNumber(d) + LeapDays(1969) < 365 * (d.year - 1969) + LeapDays(d.year)
  {
    LeapDaysOf(d.year);
    hide LeapDays, IsLeapYear;
  }

  lemma {:induction false} YearsGoOn(a: int, b: int)
    requires a < b
    ensures 365 * (b - a) + LeapDays(b - 1) - LeapDays(a) >= 365
    decreases b - a
  {
    if a + 1 < b {
      LeapDaysOf(b - 1);
      YearsGoOn(a, b - 1);
    }
  }
}
