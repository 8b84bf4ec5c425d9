/** The prose that describes a cron schedule, kept structured (the clause, not its spelling), and what it means. */
module ScheduleProse {
  import opened CronSearch
  import opened Options
  import opened Sets

  // Matchers as the parser leaves them ---------------------------------------------------------------------------

  predicate Within(s: set<int>, lo: int, hi: int) {
    s != {} && forall x :: x in s ==> lo <= x <= hi
  }

  predicate WellFormed(m: CronMatcher) {
    && Within(m.minute, 0, 59) && Within(m.hour, 0, 23) && Within(m.dayOfMonth, 1, 31)
    && Within(m.month, 1, 12) && Within(m.dayOfWeek, 0, 6)
  }

  predicate Covers(s: set<int>, lo: int, hi: int) {
    forall x :: lo <= x <= hi ==> x in s
  }

  // Sorted fields ------------------------------------------------------------------------------------------------

  ghost predicate Increasing(a: seq<int>) {
    forall i, j :: 0 <= i < j < |a| ==> a[i] < a[j]
  }

  function Least(s: set<int>): (x: int)
    requires s != {}
    ensures x in s && forall y :: y in s ==> x <= y
  {
    LeastExists(s);
    var x :| x in s && forall y :: y in s ==> x <= y;
    x
  }

  lemma {:induction false} LeastExists(s: set<int>)
    requires s != {}
    ensures exists x :: x in s && forall y :: y in s ==> x <= y
  {
    var x := Pick(s);
    if y :| y in s && y < x {
      assert y in s - {x};
      LeastExists(s - {x});
      var z :| z in s - {x} && forall y :: y in s - {x} ==> z <= y;
      assert forall y :: y in s ==> y == x || y in s - {x};
    }
  }

  /** The values of a field in ascending order. */
  function Ascending(s: set<int>): (a: seq<int>)
    ensures forall x :: x in a <==> x in s
    ensures Increasing(a)
    ensures |a| == |s|
  {
    hide Least, Increasing;
    if s == {} then
      NothingIncreases();
      []
    else
      var x := Least(s);
      var rest := Ascending(s - {x});
      PrefixedIncreases(x, rest);
      assert forall y :: y in [x] + rest <==> y == x || y in rest;
      [x] + rest
  }

  lemma NothingIncreases()
    ensures Increasing([])
  {
  }

  lemma PrefixedIncreases(x: int, rest: seq<int>)
    requires Increasing(rest) && forall y :: y in rest ==> x < y
    ensures Increasing([x] + rest)
  {
    assert forall j :: 0 <= j < |rest| ==> rest[j] in rest;
  }

  lemma {:induction false} AtLeast(a: seq<int>, k: int, lo: int)
    requires Increasing(a) && 0 <= k < |a| && lo <= a[0]
    ensures a[k] >= lo + k
  {
    if k > 0 {
      AtLeast(a, k - 1, lo);
    }
  }

  lemma {:induction false} AtMost(a: seq<int>, k: int, hi: int)
    requires Increasing(a) && 0 <= k < |a| && a[|a| - 1] <= hi
    ensures a[k] <= hi - (|a| - 1 - k)
    decreases |a| - k
  {
    if k < |a| - 1 {
      AtMost(a, k + 1, hi);
    }
  }

  /** A field covers its whole range exactly when it has as many values as the range. */
  lemma FullBySize(s: set<int>, lo: int, hi: int)
    requires Within(s, lo, hi) && lo <= hi
    ensures |s| <= hi - lo + 1
    ensures |s| == hi - lo + 1 <==> Covers(s, lo, hi)
  {
    var a := Ascending(s);
    assert a[0] in a && a[|a| - 1] in a;
    AtMost(a, 0, hi);
    if |s| == hi - lo + 1 {
      forall x | lo <= x <= hi ensures x in s {
        AtLeast(a, x - lo, lo);
        AtMost(a, x - lo, hi);
        assert a[x - lo] in a;
      }
    }
    if Covers(s, lo, hi) {
      CoveringIsLarge(s, lo, hi);
    }
  }

  lemma {:induction false} CoveringIsLarge(s: set<int>, lo: int, hi: int)
    requires Covers(s, lo, hi) && lo <= hi + 1
    ensures |s| >= hi - lo + 1
    decreases hi - lo + 1
  {
    if lo <= hi {
      CoveringIsLarge(s - {lo}, lo + 1, hi);
    }
  }

  /** The common difference of neighbours, if there is one. */
  function Stride(a: seq<int>): (step: Option<int>)
    ensures step.Some? ==> step.value > 0 && |a| >= 2 && forall i :: 1 <= i < |a| ==> a[i] - a[i - 1] == step.value
  {
    if |a| < 2 then None
    else
      var step := a[1] - a[0];
      if step <= 0 then None
      else if forall i :: 2 <= i < |a| ==> a[i] - a[i - 1] == step then Some(step)
      else None
  }

  /** `a` is a whole number of steps. */
  predicate Multiple(a: int, step: int)
    requires step > 0
    decreases a
  {
    a == 0 || (a >= step && Multiple(a - step, step))
  }

  /** With a common difference, a sorted sequence holds exactly the values in step from its first to its last. */
  lemma StrideMembers(a: seq<int>, step: int, x: int)
    requires Stride(a) == Some(step)
    ensures x in a <==> x <= a[|a| - 1] && Multiple(x - a[0], step)
  {
    StrideElements(a, step, |a| - 1);
    if x <= a[|a| - 1] && Multiple(x - a[0], step) {
      var i := StrideIndex(a, step, x);
    }
  }

  lemma {:induction false} StrideElements(a: seq<int>, step: int, i: int)
    requires Stride(a) == Some(step) && 0 <= i < |a|
    ensures forall k :: 0 <= k <= i ==> a[0] <= a[k] <= a[i] && Multiple(a[k] - a[0], step)
  {
    if i > 0 {
      StrideElements(a, step, i - 1);
    }
  }

  lemma {:induction false} StrideIndex(a: seq<int>, step: int, x: int) returns (i: int)
    requires Stride(a) == Some(step) && x <= a[|a| - 1] && Multiple(x - a[0], step)
    ensures 0 <= i < |a| && a[i] == x
    decreases x - a[0]
  {
    if x == a[0] {
      i := 0;
    } else {
      var j := StrideIndex(a, step, x - step);
      i := j + 1;
    }
  }

  // Days ---------------------------------------------------------------------------------------------------------

  datatype Days =
    | EveryDay
    | Weekdays
    | Weekends
    | WeekdayRange(first: int, last: int)
    | OnWeekdays(days: seq<int>)
    | OnDaysOfMonth(days: seq<int>)
    | YearlyOn(month: int, day: int)

  function DescribeWeekdays(dayOfWeek: set<int>): Option<Days> {
    if dayOfWeek == {1, 2, 3, 4, 5} then Some(Weekdays)
    else if dayOfWeek == {0, 6} then Some(Weekends)
    else
      var days := Ascending(dayOfWeek);
      if |days| > 3 then
        if Stride(days) != Some(1) then None else Some(WeekdayRange(days[0], days[|days| - 1]))
      else Some(OnWeekdays(days))
  }

  function DescribeMonthDays(dayOfMonth: set<int>, month: set<int>): Option<Days> {
    var days := Ascending(dayOfMonth);
    if |month| == 12 then (if |days| > 3 then None else Some(OnDaysOfMonth(days)))
    else
      var months := Ascending(month);
      if |month| == 1 && |days| == 1 && months != [] then Some(YearlyOn(months[0], days[0])) else None
  }

  function DescribeDays(m: CronMatcher): Option<Days> {
    var monthFull := |m.month| == 12;
    var dom := m.isDayOfMonthRestricted && |m.dayOfMonth| < 31;
    var dow := m.isDayOfWeekRestricted && |m.dayOfWeek| < 7;
    if dom && dow then None
    else if dow then (if !monthFull then None else DescribeWeekdays(m.dayOfWeek))
    else if dom then DescribeMonthDays(m.dayOfMonth, m.month)
    else if monthFull then Some(EveryDay)
    else None
  }

  predicate DaysMean(d: Days, w: WallClock) {
    match d
    case EveryDay => true
    case Weekdays => 1 <= w.dayOfWeek <= 5
    case Weekends => w.dayOfWeek == 0 || w.dayOfWeek == 6
    case WeekdayRange(first, last) => first <= w.dayOfWeek <= last
    case OnWeekdays(days) => w.dayOfWeek in days
    case OnDaysOfMonth(days) => w.dayOfMonth in days
    case YearlyOn(month, day) => w.month == month && w.dayOfMonth == day
  }

  // Times --------------------------------------------------------------------------------------------------------

  datatype ClockTime = ClockTime(hour: int, minute: int) {
    function Minutes(): int { hour * 60 + minute }
  }

  /** "Every hour", "Every 2 hours at :05", "Every hour at :05 and :35", "Every 15 minutes". */
  datatype Base = EveryHours(step: int, atMinutes: seq<int>) | EveryMinutes(step: int)

  datatype Time =
    | Times(times: seq<ClockTime>)
    | Interval(base: Base, window: Option<(ClockTime, ClockTime)>)

  function AtMinute(minute: int): seq<int> { if minute == 0 then [] else [minute] }

  function TimesOfHours(hours: seq<int>, minute: int): (t: seq<ClockTime>)
    ensures |t| == |hours| && forall i :: 0 <= i < |t| ==> t[i] == ClockTime(hours[i], minute)
  {
    seq(|hours|, i requires 0 <= i < |hours| => ClockTime(hours[i], minute))
  }

  function TimesOfMinutes(hour: int, minutes: seq<int>): (t: seq<ClockTime>)
    ensures |t| == |minutes| && forall i :: 0 <= i < |t| ==> t[i] == ClockTime(hour, minutes[i])
  {
    seq(|minutes|, i requires 0 <= i < |minutes| => ClockTime(hour, minutes[i]))
  }

  function DescribeTime(m: CronMatcher): Option<Time> {
    var minutes := Ascending(m.minute);
    var hours := Ascending(m.hour);
    if minutes == [] || hours == [] then None
    else if |minutes| == 1 then DescribeSingleMinute(minutes[0], hours)
    else DescribeSeveralMinutes(minutes, hours)
  }

  function DescribeSingleMinute(minute: int, hours: seq<int>): Option<Time>
    requires hours != []
  {
    var firstH, lastH := hours[0], hours[|hours| - 1];
    if |hours| == 24 then Some(Interval(EveryHours(1, AtMinute(minute)), None))
    else if |hours| == 1 then Some(Times([ClockTime(firstH, minute)]))
    else
      var step := Stride(hours);
      if step.Some? && firstH == 0 && lastH + step.value > 23 then
        Some(Interval(EveryHours(step.value, AtMinute(minute)), None))
      else if step.Some? && (step.value == 1 || |hours| > 3) then
        Some(Interval(EveryHours(step.value, []), Some((ClockTime(firstH, minute), ClockTime(lastH, minute)))))
      else if |hours| <= 3 then Some(Times(TimesOfHours(hours, minute)))
      else None
  }

  function DescribeSeveralMinutes(minutes: seq<int>, hours: seq<int>): Option<Time>
    requires |minutes| > 1 && hours != []
  {
    var step := if minutes[0] == 0 then Stride(minutes) else None;
    var interval := if step.Some? && minutes[|minutes| - 1] + step.value > 59 then step else None;
    var fullHours := |hours| == 24;
    if interval.None? && |minutes| > 3 then None
    else if interval.None? && !fullHours && |hours| == 1 then Some(Times(TimesOfMinutes(hours[0], minutes)))
    else
      var base := if interval.Some? then EveryMinutes(interval.value) else EveryHours(1, minutes);
      if fullHours then Some(Interval(base, None))
      else if !(|hours| == 1 || Stride(hours) == Some(1)) then None
      else
        Some(Interval(base, Some((ClockTime(hours[0], minutes[0]),
                                  ClockTime(hours[|hours| - 1], minutes[|minutes| - 1])))))
  }

  /** Whether a base clause takes in a time of day, counting from the window's start where it has one. */
  predicate BaseMeans(b: Base, window: Option<(ClockTime, ClockTime)>, hour: int, minute: int) {
    match b
    case EveryMinutes(step) => step > 0 && Multiple(minute, step)
    case EveryHours(step, at) =>
      step > 0 &&
      match window
      case None => Multiple(hour, step) && (if at == [] then minute == 0 else minute in at)
      case Some((from, until)) =>
        Multiple(hour - from.hour, step) && (if at == [] then minute == from.minute else minute in at)
  }

  predicate TimeMeans(t: Time, hour: int, minute: int) {
    match t
    case Times(times) => ClockTime(hour, minute) in times
    case Interval(base, window) =>
      && BaseMeans(base, window, hour, minute)
      && (window.Some? ==> window.value.0.Minutes() <= ClockTime(hour, minute).Minutes() <= window.value.1.Minutes())
  }

  // Faithfulness -------------------------------------------------------------------------------------------------

  /** A wall clock that can be shown at all. */
  predicate ValidWall(w: WallClock) {
    && 1 <= w.month <= 12 && 1 <= w.dayOfMonth <= 31 && 0 <= w.dayOfWeek <= 6
    && 0 <= w.hour <= 23 && 0 <= w.minute <= 59
  }

  /** The case the prose gets wrong: both day fields are written out and exactly one of them covers its range. */
  predicate OneDayFieldIsVacuous(m: CronMatcher) {
    && m.isDayOfMonthRestricted && m.isDayOfWeekRestricted
    && Covers(m.dayOfMonth, 1, 31) != Covers(m.dayOfWeek, 0, 6)
  }

  lemma SingleElement(s: set<int>, x: int, y: int)
    requires |s| == 1 && x in s && y in s
    ensures x == y
  {
    var a := Ascending(s);
    assert a == [a[0]];
  }

  /** The sizes the describer tests tell exactly which fields cover their range. */
  lemma FieldSizes(m: CronMatcher)
    requires WellFormed(m)
    ensures |m.month| == 12 <==> Covers(m.month, 1, 12)
    ensures |m.dayOfMonth| < 31 <==> !Covers(m.dayOfMonth, 1, 31)
    ensures |m.dayOfWeek| < 7 <==> !Covers(m.dayOfWeek, 0, 6)
  {
    FullBySize(m.month, 1, 12);
    FullBySize(m.dayOfMonth, 1, 31);
    FullBySize(m.dayOfWeek, 0, 6);
  }

  lemma WeekdaysFaithful(dayOfWeek: set<int>, d: Days, w: WallClock)
    requires Within(dayOfWeek, 0, 6) && DescribeWeekdays(dayOfWeek) == Some(d) && ValidWall(w)
    ensures DaysMean(d, w) <==> w.dayOfWeek in dayOfWeek
  {
    hide Ascending, Stride;
    if d.WeekdayRange? {
      var days := Ascending(dayOfWeek);
      StrideMembers(days, 1, w.dayOfWeek);
      if days[0] <= w.dayOfWeek {
        MultipleOfOne(w.dayOfWeek - days[0]);
      }
    }
  }

  lemma {:induction false} MultipleOfOne(a: int)
    requires a >= 0
    ensures Multiple(a, 1)
  {
    if a > 0 {
      MultipleOfOne(a - 1);
    }
  }

  lemma MonthDaysFaithful(dayOfMonth: set<int>, month: set<int>, d: Days, w: WallClock)
    requires Within(dayOfMonth, 1, 31) && Within(month, 1, 12) && ValidWall(w)
    requires DescribeMonthDays(dayOfMonth, month) == Some(d)
    ensures DaysMean(d, w) <==> w.month in month && w.dayOfMonth in dayOfMonth
  {
    var days := Ascending(dayOfMonth);
    if |month| == 12 {
      FullBySize(month, 1, 12);
    } else {
      var months := Ascending(month);
      assert months[0] in months && days[0] in days;
      if w.month in month {
        SingleElement(month, w.month, months[0]);
      }
      assert days == [days[0]];
    }
  }

  /** Outside that case the clause says exactly which days the matcher accepts. */
  lemma DaysFaithful(m: CronMatcher, d: Days, w: WallClock)
    requires WellFormed(m) && DescribeDays(m) == Some(d) && ValidWall(w)
    requires !OneDayFieldIsVacuous(m)
    ensures DaysMean(d, w) <==> DayMatches(m, w)
  {
    hide DescribeWeekdays, DescribeMonthDays;
    FieldSizes(m);
    if m.isDayOfWeekRestricted && |m.dayOfWeek| < 7 {
      WeekdaysFaithful(m.dayOfWeek, d, w);
    } else if m.isDayOfMonthRestricted && |m.dayOfMonth| < 31 {
      MonthDaysFaithful(m.dayOfMonth, m.month, d, w);
    }
  }

  /** In that case the clause is wrong about some day. */
  lemma DaysUnfaithful(m: CronMatcher, d: Days) returns (w: WallClock)
    requires WellFormed(m) && DescribeDays(m) == Some(d)
    requires OneDayFieldIsVacuous(m)
    ensures ValidWall(w) && w.hour in m.hour && w.minute in m.minute
    ensures !DaysMean(d, w) && DayMatches(m, w)
  {
    hide DescribeWeekdays, DescribeMonthDays;
    FieldSizes(m);
    var hour := Pick(m.hour);
    var minute := Pick(m.minute);
    var month := Pick(m.month);
    if Covers(m.dayOfMonth, 1, 31) {
      var missing := MissingValue(m.dayOfWeek, 0, 6);
      w := Wall(1970, month, 1, missing, hour, minute);
      WeekdaysFaithful(m.dayOfWeek, d, w);
    } else {
      var missing := MissingValue(m.dayOfMonth, 1, 31);
      w := Wall(1970, month, missing, 0, hour, minute);
      MonthDaysFaithful(m.dayOfMonth, m.month, d, w);
    }
  }

  lemma MissingValue(s: set<int>, lo: int, hi: int) returns (x: int)
    requires !Covers(s, lo, hi)
    ensures lo <= x <= hi && x !in s
  {
    x :| lo <= x <= hi && x !in s;
  }

  // Times: minute and hour fields each read back from the clause.

  lemma SingleMinuteFaithful(minute: int, hours: seq<int>, t: Time, h: int, mi: int)
    requires Increasing(hours) && hours != [] && 0 <= minute <= 59
    requires forall x :: x in hours ==> 0 <= x <= 23
    requires DescribeSingleMinute(minute, hours) == Some(t)
    requires 0 <= h <= 23 && 0 <= mi <= 59
    ensures TimeMeans(t, h, mi) <==> mi == minute && h in hours
  {
    hide Stride;
    var firstH, lastH := hours[0], hours[|hours| - 1];
    if |hours| == 24 {
      assert firstH in hours && lastH in hours;
      AtLeast(hours, h, 0);
      AtMost(hours, h, 23);
      MultipleOfOne(h);
    } else if |hours| == 1 {
      assert hours == [firstH];
    } else {
      var step := Stride(hours);
      if step.Some? {
        StrideMembers(hours, step.value, h);
      }
      match t
      case Times(times) =>
        if ClockTime(h, mi) in times {
          var i :| 0 <= i < |times| && times[i] == ClockTime(h, mi);
        }
        if h in hours {
          var i :| 0 <= i < |hours| && hours[i] == h;
          assert times[i] == ClockTime(h, minute);
        }
      case Interval(base, window) =>
        if window.None? {
          StrideMembers(hours, step.value, lastH);
          NoLaterStep(h, lastH, step.value, 23);
        }
    }
  }

  /** When the next step would leave the range, no multiple in the range lies past the last one. */
  lemma NoLaterStep(x: int, last: int, step: int, hi: int)
    requires step > 0 && x <= hi && last + step > hi && last >= 0
    requires Multiple(last, step)
    ensures Multiple(x, step) ==> x <= last
  {
    if Multiple(x, step) && x > last {
      DifferenceOfMultiples(x, last, step);
    }
  }

  lemma {:induction false} DifferenceOfMultiples(a: int, b: int, step: int)
    requires step > 0 && Multiple(a, step) && Multiple(b, step) && a > b
    ensures a - b >= step
    decreases b
  {
    if b > 0 {
      DifferenceOfMultiples(a - step, b - step, step);
    }
  }

  /** A run of consecutive hours, or a single one. */
  lemma ConsecutiveHours(hours: seq<int>, h: int)
    requires hours != [] && (|hours| == 1 || Stride(hours) == Some(1))
    ensures h in hours <==> hours[0] <= h <= hours[|hours| - 1]
  {
    if |hours| == 1 {
      assert hours == [hours[0]];
    } else {
      StrideMembers(hours, 1, h);
      if hours[0] <= h {
        MultipleOfOne(h - hours[0]);
      }
    }
  }

  lemma WindowHours(hours: seq<int>, minutes: seq<int>, h: int, mi: int)
    requires Increasing(hours) && Increasing(minutes) && hours != [] && mi in minutes
    requires forall x :: x in minutes ==> 0 <= x <= 59
    ensures ClockTime(hours[0], minutes[0]).Minutes() <= ClockTime(h, mi).Minutes()
              <= ClockTime(hours[|hours| - 1], minutes[|minutes| - 1]).Minutes()
            <==> hours[0] <= h <= hours[|hours| - 1]
  {
    var i :| 0 <= i < |minutes| && minutes[i] == mi;
    assert minutes[0] in minutes && minutes[|minutes| - 1] in minutes;
    assert minutes[0] <= mi <= minutes[|minutes| - 1];
  }

  lemma BaseMinutes(minutes: seq<int>, mi: int)
    requires Increasing(minutes) && minutes != [] && minutes[0] == 0
    requires forall x :: x in minutes ==> 0 <= x <= 59
    requires Stride(minutes).Some? && minutes[|minutes| - 1] + Stride(minutes).value > 59
    requires 0 <= mi <= 59
    ensures Multiple(mi, Stride(minutes).value) <==> mi in minutes
  {
    hide Stride;
    var step, last := Stride(minutes).value, minutes[|minutes| - 1];
    assert last in minutes;
    StrideMembers(minutes, step, mi);
    StrideMembers(minutes, step, last);
    NoLaterStep(mi, last, step, 59);
  }

  lemma SeveralMinutesFaithful(minutes: seq<int>, hours: seq<int>, t: Time, h: int, mi: int)
    requires Increasing(hours) && hours != [] && Increasing(minutes) && |minutes| > 1
    requires forall x :: x in hours ==> 0 <= x <= 23
    requires forall x :: x in minutes ==> 0 <= x <= 59
    requires DescribeSeveralMinutes(minutes, hours) == Some(t)
    requires 0 <= h <= 23 && 0 <= mi <= 59
    ensures TimeMeans(t, h, mi) <==> mi in minutes && h in hours
  {
    hide Stride, Multiple;
    match t
    case Times(times) =>
      assert hours == [hours[0]];
      if ClockTime(h, mi) in times {
        var i :| 0 <= i < |times| && times[i] == ClockTime(h, mi);
      }
      if mi in minutes {
        var i :| 0 <= i < |minutes| && minutes[i] == mi;
        assert times[i] == ClockTime(hours[0], mi);
      }
    case Interval(base, window) =>
      if base.EveryMinutes? {
        BaseMinutes(minutes, mi);
      }
      if window.None? {
        assert hours[0] in hours && hours[|hours| - 1] in hours;
        AtLeast(hours, h, 0);
        AtMost(hours, h, 23);
        MultipleOfOne(h);
      } else {
        ConsecutiveHours(hours, h);
        if mi in minutes {
          WindowHours(hours, minutes, h, mi);
        }
        if hours[0] <= h {
          MultipleOfOne(h - hours[0]);
        }
      }
  }

  /** The time clause says exactly which times of day the matcher accepts. */
  lemma TimeFaithful(m: CronMatcher, t: Time, w: WallClock)
    requires WellFormed(m) && DescribeTime(m) == Some(t) && ValidWall(w)
    ensures TimeMeans(t, w.hour, w.minute) <==> w.minute in m.minute && w.hour in m.hour
  {
    hide Ascending, DescribeSingleMinute, DescribeSeveralMinutes, TimeMeans;
    var minutes, hours := Ascending(m.minute), Ascending(m.hour);
    if |minutes| == 1 {
      assert minutes == [minutes[0]] && minutes[0] in minutes;
      SingleMinuteFaithful(minutes[0], hours, t, w.hour, w.minute);
    } else {
      SeveralMinutesFaithful(minutes, hours, t, w.hour, w.minute);
    }
  }

  // What is said, and when -------------------------------------------------------------------------------------------

  /** At equal distances. */
  ghost predicate Spaced(a: seq<int>, step: int) {
    |a| >= 2 && step > 0 && forall i :: 1 <= i < |a| ==> a[i] - a[i - 1] == step
  }

  lemma StrideIff(a: seq<int>, step: int)
    ensures Stride(a) == Some(step) <==> Spaced(a, step)
  {
  }

  /** A field that has every value from one to another, and no other. */
  ghost predicate IsRange(s: set<int>, first: int, last: int) { forall x :: x in s <==> first <= x <= last }

  /** Weekdays are said as weekdays, as weekends, as a range, or as a list of at most three, and not at all if they are
      more and no range. */
  lemma WeekdaysSaid(s: set<int>)
    requires Within(s, 0, 6)
    ensures
      var said := DescribeWeekdays(s);
      && (said == Some(Weekdays) <==> IsRange(s, 1, 5))
      && (said == Some(Weekends) <==> s == {0, 6})
      && (said.Some? && said.value.WeekdayRange? <==> |s| > 3 && !IsRange(s, 1, 5) && HasNoGap(s))
      && (said.Some? && said.value.OnWeekdays? <==> |s| <= 3 && s != {0, 6})
      && (said.None? <==> |s| > 3 && !HasNoGap(s))
  {
    WorkingDays(s);
    if |s| >= 2 {
      RangeIsSpaced(s);
    }
    hide Ascending, Stride, Within, IsRange;
  }

  lemma WorkingDays(s: set<int>)
    requires Within(s, 0, 6)
    ensures IsRange(s, 1, 5) <==> s == {1, 2, 3, 4, 5}
    ensures s == {1, 2, 3, 4, 5} ==> |s| == 5
    ensures s == {0, 6} ==> |s| == 2
    ensures IsRange(s, 1, 5) ==> HasNoGap(s)
  {
    if IsRange(s, 1, 5) {
      assert forall x :: x in s <==> x in {1, 2, 3, 4, 5};
    }
  }

  /** Every value between two of a field is one of it. */
  ghost predicate HasNoGap(s: set<int>) {
    forall x, y, z :: x in s && z in s && x <= y <= z ==> y in s
  }

  /** The sorted values are one apart exactly if there is no gap between them. */
  lemma RangeIsSpaced(s: set<int>)
    requires |s| >= 2
    ensures Stride(Ascending(s)) == Some(1) <==> HasNoGap(s)
  {
    hide Ascending;
    var a := Ascending(s);
    if Stride(a) == Some(1) {
      SpacedHasNoGap(s, a);
    }
    if HasNoGap(s) {
      NoGapIsSpaced(s, a);
    }
  }

  lemma SpacedHasNoGap(s: set<int>, a: seq<int>)
    requires Stride(a) == Some(1) && forall x :: x in a <==> x in s
    ensures HasNoGap(s)
  {
    hide Stride;
    forall x, y, z | x in s && z in s && x <= y <= z
      ensures y in s
    {
      StrideMembers(a, 1, x);
      StrideMembers(a, 1, y);
      StrideMembers(a, 1, z);
      StepsBack(x - a[0]);
      MultipleOfOne(y - a[0]);
    }
  }

  lemma StepsBack(n: int)
    requires Multiple(n, 1)
    ensures n >= 0
  {
  }

  lemma NoGapIsSpaced(s: set<int>, a: seq<int>)
    requires HasNoGap(s) && Increasing(a) && |a| >= 2 && forall x :: x in a <==> x in s
    ensures Stride(a) == Some(1)
  {
    hide Stride;
    forall i | 1 <= i < |a|
      ensures a[i] - a[i - 1] == 1
    {
      assert a[i - 1] in s && a[i] in s;
      assert a[i - 1] < a[i];
      assert a[i - 1] + 1 in s;
      NextOne(a, i);
    }
    StrideIff(a, 1);
  }

  lemma NextOne(a: seq<int>, i: int)
    requires Increasing(a) && 1 <= i < |a| && a[i - 1] + 1 in a
    ensures a[i] <= a[i - 1] + 1
  {
    var j :| 0 <= j < |a| && a[j] == a[i - 1] + 1;
    if i < j {
      assert a[i] < a[j];
    }
  }

  /** The days are said by date or by weekday, whichever of the two narrows them: every day if neither does; weekdays if
      all months are in; at most three days of every month, or one day of the year; else they are not said. */
  lemma DaysSaid(m: CronMatcher)
    requires WellFormed(m)
    ensures
      var byDate := m.isDayOfMonthRestricted && !Covers(m.dayOfMonth, 1, 31);
      var byWeekday := m.isDayOfWeekRestricted && !Covers(m.dayOfWeek, 0, 6);
      var everyMonth := Covers(m.month, 1, 12);
      var said := DescribeDays(m);
      && (said == Some(EveryDay) <==> !byDate && !byWeekday && everyMonth)
      && (said.Some? && said.value.OnDaysOfMonth? <==> byDate && !byWeekday && everyMonth && |m.dayOfMonth| <= 3)
      && (said.Some? && said.value.YearlyOn? <==> byDate && !byWeekday && |m.month| == |m.dayOfMonth| == 1)
      && (byWeekday && !byDate && everyMonth ==> said == DescribeWeekdays(m.dayOfWeek))
      && (byWeekday && !byDate && !everyMonth ==> said.None?)
      && (byDate && byWeekday ==> said.None?)
  {
    FieldSizes(m);
    hide Ascending, Covers, Within, Stride;
  }

  /** What is said of a schedule with one minute: nothing, if the hours are more than three and not evenly spaced; an
      interval through the day, if they are every so many from midnight on; an interval within a window, if they are
      next to each other, or more than three and evenly spaced; else each of the times. */
  lemma OneMinuteSaid(m: CronMatcher, minute: int)
    requires WellFormed(m) && m.minute == {minute}
    ensures
      var (said, hours) := (DescribeTime(m), Ascending(m.hour));
      var step := if |hours| >= 2 then hours[1] - hours[0] else 0;
      var even := Spaced(hours, step);
      var allDay := even && hours[0] == 0 && hours[|hours| - 1] + step >= 24;
      && (said.None? <==> |m.hour| > 3 && !even)
      && (said.Some? && said.value.Times? <==> |m.hour| <= 3 && !allDay && !(even && step == 1))
      && (said.Some? && said.value.Interval? && said.value.window.None? <==> allDay)
      && (said.Some? && said.value.Interval? ==>
            said.value.base == EveryHours(step, if minute == 0 || said.value.window.Some? then [] else [minute]))
  {
    hide Ascending, DescribeSingleMinute, Spaced, Increasing, Within, Covers, DescribeTime;
    TimeByHours(m, minute);
    HoursFit(m.hour);
    SingleMinuteSaid(minute, Ascending(m.hour));
  }

  lemma TimeByHours(m: CronMatcher, minute: int)
    requires WellFormed(m) && m.minute == {minute}
    ensures Within(m.hour, 0, 23) && Ascending(m.hour) != []
    ensures DescribeTime(m) == DescribeSingleMinute(minute, Ascending(m.hour))
  {
    hide Ascending, DescribeSingleMinute, Increasing;
    OnlyOne(m.minute, minute);
  }

  lemma OnlyOne(s: set<int>, x: int)
    requires s == {x}
    ensures Ascending(s) == [x]
  {
    var a := Ascending(s);
    assert a[0] in a;
  }

  /** The hours of a day, sorted. */
  lemma HoursFit(s: set<int>)
    requires Within(s, 0, 23)
    ensures 1 <= |Ascending(s)| <= 24
    ensures |Ascending(s)| == 24 <==> Covers(s, 0, 23)
    ensures |Ascending(s)| == 24 ==> Spaced(Ascending(s), 1) && Ascending(s)[0] == 0 && Ascending(s)[23] == 23
  {
    hide Ascending;
    FullBySize(s, 0, 23);
    var a := Ascending(s);
    if |a| == 24 {
      RangeIsSpaced(s);
      StrideIff(a, 1);
      assert 0 in a && 23 in a && a[0] in a && a[23] in a;
      Ends(a, 0, 23);
    }
  }

  lemma Ends(a: seq<int>, lo: int, hi: int)
    requires Increasing(a) && lo in a && hi in a && forall x :: x in a ==> lo <= x <= hi
    ensures a[0] == lo && a[|a| - 1] == hi
  {
    assert a[0] in a && a[|a| - 1] in a;
    var i :| 0 <= i < |a| && a[i] == lo;
    var j :| 0 <= j < |a| && a[j] == hi;
    assert a[0] <= a[i] && a[j] <= a[|a| - 1];
  }

  lemma SingleMinuteSaid(minute: int, hours: seq<int>)
    requires 1 <= |hours| <= 24
    requires |hours| == 24 ==> Spaced(hours, 1) && hours[0] == 0 && hours[23] == 23
    ensures
      var said := DescribeSingleMinute(minute, hours);
      var step := if |hours| >= 2 then hours[1] - hours[0] else 0;
      var even := Spaced(hours, step);
      var allDay := even && hours[0] == 0 && hours[|hours| - 1] + step >= 24;
      && (said.None? <==> |hours| > 3 && !even)
      && (said.Some? && said.value.Times? <==> |hours| <= 3 && !allDay && !(even && step == 1))
      && (said.Some? && said.value.Interval? && said.value.window.None? <==> allDay)
      && (said.Some? && said.value.Interval? ==>
            said.value.base == EveryHours(step, if minute == 0 || said.value.window.Some? then [] else [minute]))
  {
    if |hours| >= 2 {
      OnlyStride(hours);
    }
    hide Stride, Spaced;
    assert |hours| == 1 ==> !Spaced(hours, 0);
  }

  lemma OnlyStride(a: seq<int>)
    requires |a| >= 2
    ensures Stride(a) == if Spaced(a, a[1] - a[0]) then Some(a[1] - a[0]) else None
    ensures forall step :: Spaced(a, step) ==> step == a[1] - a[0]
  {
  }

  /** What is said of one with several minutes: nothing, if they are more than three and not every so many through the
      hour, or if there is a gap between the hours; each of the times, if the hour is one and the minutes are not every
      so many; else an interval, within a window if not all hours are in. */
  lemma SeveralMinutesSaid(m: CronMatcher)
    requires WellFormed(m) && |m.minute| > 1
    ensures
      var (said, minutes) := (DescribeTime(m), Ascending(m.minute));
      var step := minutes[1] - minutes[0];
      var allHour := Spaced(minutes, step) && minutes[0] == 0 && minutes[|minutes| - 1] + step >= 60;
      && (said.None? <==> (!allHour && |m.minute| > 3) || !HasNoGap(m.hour))
      && (said.Some? && said.value.Times? <==> !allHour && |m.minute| <= 3 && |m.hour| == 1)
      && (said.Some? && said.value.Interval? ==>
            && (said.value.window.None? <==> Covers(m.hour, 0, 23))
            && said.value.base == if allHour then EveryMinutes(step) else EveryHours(1, minutes))
  {
    hide Ascending, Stride, Spaced, HasNoGap, Covers, Within, Increasing, DescribeTime, DescribeSeveralMinutes;
    TimeByMinutes(m);
    HoursFit(m.hour);
    if |m.hour| == 1 {
      OneHasNoGap(m.hour);
    } else {
      RangeIsSpaced(m.hour);
    }
    MinutesSaid(Ascending(m.minute), Ascending(m.hour));
  }

  lemma TimeByMinutes(m: CronMatcher)
    requires WellFormed(m) && |m.minute| > 1
    ensures Ascending(m.hour) != [] && Within(m.hour, 0, 23)
    ensures DescribeTime(m) == DescribeSeveralMinutes(Ascending(m.minute), Ascending(m.hour))
  {
    hide Ascending, DescribeSeveralMinutes, Increasing;
  }

  lemma MinutesSaid(minutes: seq<int>, hours: seq<int>)
    requires |minutes| > 1 && hours != []
    requires |hours| == 24 ==> Spaced(hours, 1)
    ensures
      var said := DescribeSeveralMinutes(minutes, hours);
      var step := minutes[1] - minutes[0];
      var allHour := Spaced(minutes, step) && minutes[0] == 0 && minutes[|minutes| - 1] + step >= 60;
      && (said.None? <==> (!allHour && |minutes| > 3) || (|hours| > 1 && Stride(hours) != Some(1)))
      && (said.Some? && said.value.Times? <==> !allHour && |minutes| <= 3 && |hours| == 1)
      && (said.Some? && said.value.Interval? ==>
            && (said.value.window.None? <==> |hours| == 24)
            && said.value.base == if allHour then EveryMinutes(step) else EveryHours(1, minutes))
  {
    OnlyStride(minutes);
    StrideIff(hours, 1);
    hide Stride, Spaced;
  }

  lemma OneHasNoGap(s: set<int>)
    requires |s| == 1
    ensures HasNoGap(s)
  {
    var a := Ascending(s);
    assert forall x :: x in s ==> x in a;
  }

  // The whole description ----------------------------------------------------------------------------------------

  datatype Prose = Prose(days: Days, time: Time)

  /** None when the schedule is too irregular for prose and is shown as written. */
  function DescribeSchedule(m: CronMatcher): Option<Prose> {
    var days, time := DescribeDays(m), DescribeTime(m);
    if days.None? || time.None? then None else Some(Prose(days.value, time.value))
  }

  /** Something is said exactly if there is something to say about the days and about the times. */
  lemma SaidIff(m: CronMatcher)
    ensures DescribeSchedule(m).Some? <==> DescribeDays(m).Some? && DescribeTime(m).Some?
    ensures DescribeSchedule(m).Some? ==>
      Some(DescribeSchedule(m).value.days) == DescribeDays(m) && Some(DescribeSchedule(m).value.time) == DescribeTime(m)
  {
    hide DescribeDays, DescribeTime;
  }

  predicate ProseMeans(p: Prose, w: WallClock) {
    DaysMean(p.days, w) && TimeMeans(p.time, w.hour, w.minute)
  }

  ghost predicate TellsTheTruth(p: Prose, m: CronMatcher) {
    forall w: WallClock :: ValidWall(w) ==> (ProseMeans(p, w) <==> Matches(m, w))
  }

  /** The prose is true of every wall clock exactly when the two day fields are not both written out with just one
      of them covering its range. */
  lemma ProseIsFaithful(m: CronMatcher, p: Prose)
    requires WellFormed(m) && DescribeSchedule(m) == Some(p)
    ensures TellsTheTruth(p, m) <==> !OneDayFieldIsVacuous(m)
  {
    hide DescribeDays, DescribeTime, DaysMean, TimeMeans, DayMatches;
    if OneDayFieldIsVacuous(m) {
      var w := DaysUnfaithful(m, p.days);
      TimeFaithful(m, p.time, w);
      assert !ProseMeans(p, w) && Matches(m, w);
    } else {
      forall w: WallClock | ValidWall(w) ensures ProseMeans(p, w) <==> Matches(m, w) {
        DaysFaithful(m, p.days, w);
        TimeFaithful(m, p.time, w);
      }
    }
  }

  /** Schedules described alike run alike. */
  lemma SameProseSameRuns(m: CronMatcher, m': CronMatcher, p: Prose, w: WallClock)
    requires WellFormed(m) && WellFormed(m') && ValidWall(w)
    requires DescribeSchedule(m) == Some(p) == DescribeSchedule(m')
    requires !OneDayFieldIsVacuous(m) && !OneDayFieldIsVacuous(m')
    ensures Matches(m, w) <==> Matches(m', w)
  {
    hide DescribeSchedule, ProseMeans, Matches;
    ProseIsFaithful(m, p);
    ProseIsFaithful(m', p);
    assert ProseMeans(p, w) <==> Matches(m, w);
  }
}
