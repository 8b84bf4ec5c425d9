/** The cron matcher and the search for the next run, which skips whole days it knows cannot match. */
module CronSearch {
  import opened Calendar
  import opened Options

  const MINUTE_MS := 60_000
  const MAX_CRON_SEARCH_MINUTES := 366 * 24 * 60

  datatype CronMatcher = CronMatcher(
    minute: set<int>, hour: set<int>, dayOfMonth: set<int>, month: set<int>, dayOfWeek: set<int>,
    isDayOfMonthRestricted: bool, isDayOfWeekRestricted: bool)

  datatype RawWall = Wall(year: int, month: int, dayOfMonth: int, dayOfWeek: int, hour: int, minute: int)

  type WallClock = w: RawWall | 0 <= w.hour <= 23 && 0 <= w.minute <= 59 witness Wall(1970, 1, 1, 4, 0, 0)

  /** What the local clock shows at a minute, counted in whole minutes from the epoch. */
  type Clock = int -> WallClock

  predicate DayMatches(m: CronMatcher, w: WallClock) {
    if w.month !in m.month then false
    else
      var dom := w.dayOfMonth in m.dayOfMonth;
      var dow := w.dayOfWeek in m.dayOfWeek;
      if m.isDayOfMonthRestricted && m.isDayOfWeekRestricted then dom || dow
      else (if m.isDayOfMonthRestricted then dom else true) && (if m.isDayOfWeekRestricted then dow else true)
  }

  predicate Matches(m: CronMatcher, w: WallClock) {
    w.minute in m.minute && w.hour in m.hour && DayMatches(m, w)
  }

  predicate SameDate(a: WallClock, b: WallClock) {
    a.year == b.year && a.month == b.month && a.dayOfMonth == b.dayOfMonth
  }

  function Min(a: int, b: int): int { if a < b then a else b }

  /** The minute-by-minute search over [from, until): the plain meaning of "next run". */
  function FirstMatch(m: CronMatcher, clock: Clock, from: int, until: int): (r: Option<int>)
    ensures r.Some? ==> from <= r.value < until && Matches(m, clock(r.value))
    ensures r.Some? ==> forall t :: from <= t < r.value ==> !Matches(m, clock(t))
    ensures r.None? ==> forall t :: from <= t < until ==> !Matches(m, clock(t))
    decreases until - from
  {
    if from >= until then None
    else if Matches(m, clock(from)) then Some(from)
    else FirstMatch(m, clock, from + 1, until)
  }

  /** Dropping a stretch without matches from the front changes nothing. */
  lemma FirstMatchSkips(m: CronMatcher, clock: Clock, from: int, skipped: int, until: int)
    requires from <= skipped
    requires forall t :: from <= t < skipped ==> !Matches(m, clock(t))
    ensures FirstMatch(m, clock, from, until) == FirstMatch(m, clock, skipped, until)
  {
  }

  /** Where the search continues from a minute whose day does not match. */
  function SkipTarget(clock: Clock, cursor: int): (next: int)
    ensures cursor < next <= cursor + 1440
  {
    var wall := clock(cursor);
    var toMidnight := (23 - wall.hour) * 60 + (60 - wall.minute);
    var nextWall := clock(cursor + toMidnight);
    if SameDate(nextWall, wall) then cursor + toMidnight
    else cursor + toMidnight - Min(nextWall.hour * 60 + nextWall.minute, toMidnight - 1)
  }

  /** If `t` is skipped from `c`, it shows the date and the weekday that `c` shows. */
  ghost predicate SkipStaysOnDate(clock: Clock, c: int, t: int) {
    c <= t < SkipTarget(clock, c) ==> SameDate(clock(t), clock(c)) && clock(t).dayOfWeek == clock(c).dayOfWeek
  }

  ghost predicate SkipsStayOnDate(clock: Clock) {
    forall c, t :: SkipStaysOnDate(clock, c, t)
  }

  /** On such a clock a skip passes over no match. */
  lemma SkipsNoMatch(m: CronMatcher, clock: Clock, c: int, until: int)
    requires SkipsStayOnDate(clock)
    requires !DayMatches(m, clock(c))
    ensures FirstMatch(m, clock, c, until) == FirstMatch(m, clock, SkipTarget(clock, c), until)
  {
    forall t | c <= t < SkipTarget(clock, c) ensures !Matches(m, clock(t)) {
      assert SkipStaysOnDate(clock, c, t);
    }
    FirstMatchSkips(m, clock, c, SkipTarget(clock, c), until);
  }

  /** The run that the minute-by-minute search reports, in milliseconds. */
  function ExpectedRun(m: CronMatcher, afterMs: int, clock: Clock): Option<int> {
    var first := afterMs / MINUTE_MS + 1;
    var expected := FirstMatch(m, clock, first, first + MAX_CRON_SEARCH_MINUTES);
    if expected.None? then None else Some(expected.value * MINUTE_MS)
  }

  /** The skipping search over [cursor, deadline). */
  function Search(m: CronMatcher, clock: Clock, cursor: int, deadline: int): (r: Option<int>)
    ensures r.Some? ==> cursor <= r.value < deadline && Matches(m, clock(r.value))
    decreases deadline - cursor
  {
    if cursor >= deadline then None
    else if Matches(m, clock(cursor)) then Some(cursor)
    else if DayMatches(m, clock(cursor)) then Search(m, clock, cursor + 1, deadline)
    else Search(m, clock, SkipTarget(clock, cursor), deadline)
  }

  /** The run that the skipping search reports, in milliseconds. */
  function SearchedRun(m: CronMatcher, afterMs: int, clock: Clock): Option<int> {
    var first := afterMs / MINUTE_MS + 1;
    var found := Search(m, clock, first, first + MAX_CRON_SEARCH_MINUTES);
    if found.None? then None else Some(found.value * MINUTE_MS)
  }

  /** On clocks whose skips stay on one date the two searches are one. */
  lemma {:induction false} SearchIsRight(m: CronMatcher, clock: Clock, cursor: int, deadline: int)
    requires SkipsStayOnDate(clock)
    ensures Search(m, clock, cursor, deadline) == FirstMatch(m, clock, cursor, deadline)
    decreases deadline - cursor
  {
    hide SkipsStayOnDate, SkipTarget;
    if cursor < deadline && !Matches(m, clock(cursor)) {
      if DayMatches(m, clock(cursor)) {
        SearchIsRight(m, clock, cursor + 1, deadline);
      } else {
        SkipsNoMatch(m, clock, cursor, deadline);
        SearchIsRight(m, clock, SkipTarget(clock, cursor), deadline);
      }
    }
  }

  lemma SearchStep(m: CronMatcher, clock: Clock, cursor: int, deadline: int)
    ensures Search(m, clock, cursor, deadline) ==
      if cursor >= deadline then None
      else if Matches(m, clock(cursor)) then Some(cursor)
      else Search(m, clock, if DayMatches(m, clock(cursor)) then cursor + 1 else SkipTarget(clock, cursor), deadline)
  {
  }

  /** The loop takes the search's steps, at most as many as the horizon has minutes. It only ever reports a minute that
      matches, and it is right on every clock whose skips stay on one date. */
  method NextCronRun(m: CronMatcher, afterMs: int, clock: Clock) returns (run: Option<int>, ghost steps: nat)
    ensures run == SearchedRun(m, afterMs, clock)
    ensures steps <= MAX_CRON_SEARCH_MINUTES
    ensures run.Some? ==>
      exists t ::
        afterMs / MINUTE_MS < t <= afterMs / MINUTE_MS + MAX_CRON_SEARCH_MINUTES &&
        run.value == t * MINUTE_MS && Matches(m, clock(t))
    ensures SkipsStayOnDate(clock) ==> run == ExpectedRun(m, afterMs, clock)
  {
    SearchedRunIs(m, afterMs, clock);
    hide Search, FirstMatch, SkipsStayOnDate, DayMatches, SearchedRun, ExpectedRun, SkipTarget;
    var cursor := afterMs / MINUTE_MS + 1;
    var deadline := cursor + MAX_CRON_SEARCH_MINUTES;
    ghost var first := cursor;
    steps := 0;
    while cursor < deadline
      invariant first <= cursor
      invariant steps <= cursor - first && steps <= MAX_CRON_SEARCH_MINUTES
      invariant Search(m, clock, first, deadline) == Search(m, clock, cursor, deadline)
      decreases deadline - cursor
    {
      steps := steps + 1;
      SearchStep(m, clock, cursor, deadline);
      var wall := clock(cursor);
      if Matches(m, wall) {
        return Some(cursor * MINUTE_MS), steps;
      }
      if DayMatches(m, wall) {
        cursor := cursor + 1;
        continue;
      }
      cursor := SkipDay(clock, cursor, wall);
    }
    SearchStep(m, clock, cursor, deadline);
    run := None;
  }

  /** To the local midnight as the offset stands, and back by what the clock then shows past midnight. */
  method SkipDay(clock: Clock, cursor: int, wall: WallClock) returns (next: int)
    requires wall == clock(cursor)
    ensures next == SkipTarget(clock, cursor)
  {
    var toMidnight := (23 - wall.hour) * 60 + (60 - wall.minute);
    var candidate := cursor + toMidnight;
    var nextWall := clock(candidate);
    if nextWall.year == wall.year && nextWall.month == wall.month && nextWall.dayOfMonth == wall.dayOfMonth {
      return candidate;
    }
    var overshoot := Min(nextWall.hour * 60 + nextWall.minute, toMidnight - 1);
    return candidate - overshoot;
  }

  /** What the search reports is a minute of the horizon that matches, and right on clocks whose skips stay on one
      date. */
  lemma SearchedRunIs(m: CronMatcher, afterMs: int, clock: Clock)
    ensures
      var run := SearchedRun(m, afterMs, clock);
      var first := afterMs / MINUTE_MS + 1;
      var found := Search(m, clock, first, first + MAX_CRON_SEARCH_MINUTES);
      && run == (if found.None? then None else Some(found.value * MINUTE_MS))
      && (run.Some? ==>
            exists t ::
              afterMs / MINUTE_MS < t <= afterMs / MINUTE_MS + MAX_CRON_SEARCH_MINUTES &&
              run.value == t * MINUTE_MS && Matches(m, clock(t)))
      && (SkipsStayOnDate(clock) ==> run == ExpectedRun(m, afterMs, clock))
  {
    hide SkipsStayOnDate, FirstMatch;
    var first := afterMs / MINUTE_MS + 1;
    if SkipsStayOnDate(clock) {
      SearchIsRight(m, clock, first, first + MAX_CRON_SEARCH_MINUTES);
    }
  }

  // Time zones -------------------------------------------------------------------------------------------------

  function LocalMinute(off: int -> int, t: int): int { t + off(t) }

  function LocalDay(off: int -> int, t: int): int { LocalMinute(off, t) / 1440 }

  /** The wall clock of a zone whose offset from UTC, in whole minutes, is `off`. */
  function ZoneWall(off: int -> int, t: int): (w: WallClock)
  {
    var day := LocalDay(off, t);
    var minuteOfDay := LocalMinute(off, t) % 1440;
    var date := DateOf(day);
    Wall(date.year, date.month, date.day, WeekdayOf(day), minuteOfDay / 60, minuteOfDay % 60)
  }

  ghost predicate OffsetChangesAt(off: int -> int, t: int) { off(t) != off(t - 1) }

  ghost predicate DatesGoOn(off: int -> int) { forall t :: LocalDay(off, t) <= LocalDay(off, t + 1) }

  /** At most one offset change in any 24 hours; no change takes back more than a day; and one that skips a day or more
      does so at local midnight (as when Samoa left out 30 December 2011). */
  ghost predicate RegularZone(off: int -> int) {
    && (forall s, t :: s < t && OffsetChangesAt(off, s) && OffsetChangesAt(off, t) ==> t - s >= 1440)
    && (forall t :: OffsetChangesAt(off, t) ==>
          off(t) - off(t - 1) >= -1440 && (off(t) - off(t - 1) < 1440 || (t + off(t - 1)) % 1440 == 0))
  }

  /** A regular zone whose local dates never go backwards. */
  ghost predicate ZoneClock(off: int -> int) { RegularZone(off) && DatesGoOn(off) }

  lemma {:induction false} DaysDoNotGoBack(off: int -> int, s: int, t: int)
    requires ZoneClock(off) && s <= t
    ensures LocalDay(off, s) <= LocalDay(off, t)
    decreases t - s
  {
    if s < t {
      DaysDoNotGoBack(off, s + 1, t);
    }
  }

  /** Within a day the offset has one value up to some minute and another from there on. */
  lemma {:induction false} OffsetsWithinADay(off: int -> int, c: int, n: nat) returns (change: int)
    requires ZoneClock(off) && n <= 1440
    ensures c < change <= c + n + 1
    ensures change <= c + n ==> OffsetChangesAt(off, change)
    ensures forall t :: c <= t < change && t <= c + n ==> off(t) == off(c)
    ensures forall t :: change <= t <= c + n ==> off(t) == off(c + n)
  {
    hide DatesGoOn;
    if n == 0 {
      change := c + 1;
    } else {
      change := OffsetsWithinADay(off, c, n - 1);
      if OffsetChangesAt(off, c + n) {
        assert change == c + n;
      } else if change == c + n {
        change := c + n + 1;
      }
    }
  }

  lemma DayOfMinute(minute: int, day: int)
    requires day * 1440 <= minute < (day + 1) * 1440
    ensures minute / 1440 == day && minute % 1440 == minute - day * 1440
  {
  }

  function MidnightAfter(off: int -> int, c: int): int { c + 1440 - LocalMinute(off, c) % 1440 }

  /** What a skip does in a zone, in minutes: to the instant midnight would fall on if the offset stayed, less what
      the clock then shows past midnight. */
  lemma ZoneSkipTarget(off: int -> int, c: int)
    ensures c < MidnightAfter(off, c) <= c + 1440
    ensures LocalDay(off, MidnightAfter(off, c)) == LocalDay(off, c) ==>
      SkipTarget(u => ZoneWall(off, u), c) == MidnightAfter(off, c)
    ensures LocalDay(off, MidnightAfter(off, c)) != LocalDay(off, c) ==>
      SkipTarget(u => ZoneWall(off, u), c) ==
      MidnightAfter(off, c) - Min(LocalMinute(off, MidnightAfter(off, c)) % 1440, MidnightAfter(off, c) - c - 1)
  {
    var clock := u => ZoneWall(off, u);
    var candidate := MidnightAfter(off, c);
    assert candidate == c + ((23 - clock(c).hour) * 60 + (60 - clock(c).minute));
    if SameDate(clock(candidate), clock(c)) {
      DateDeterminesDay(LocalDay(off, candidate), LocalDay(off, c));
    }
  }

  /** The hard case: the offset changes inside the stretch that is skipped, at or before the skipped minute. */
  lemma SkipAfterChange(off: int -> int, c: int, t: int, candidate: int, change: int)
    requires candidate == MidnightAfter(off, c)
    requires c < change <= t <= candidate
    requires t < candidate - Min(LocalMinute(off, candidate) % 1440, candidate - c - 1)
    requires off(change - 1) == off(c) && off(t) == off(change) == off(candidate)
    requires LocalDay(off, c) < LocalDay(off, candidate)
    requires off(change) - off(change - 1) < 1440 || (change + off(change - 1)) % 1440 == 0
    requires LocalDay(off, c) <= LocalDay(off, t)
    ensures LocalDay(off, t) == LocalDay(off, c)
  {
    var day := LocalDay(off, c);
    var minuteOfDay := LocalMinute(off, c) % 1440;
    var jump := off(candidate) - off(c);
    assert LocalMinute(off, c) == day * 1440 + minuteOfDay;
    assert LocalMinute(off, candidate) == (day + 1) * 1440 + jump;
    if jump < 1440 {
      assert jump >= 0;
      DayOfMinute(LocalMinute(off, candidate), day + 1);
      DayOfMinute(LocalMinute(off, t), day);
    } else {
      // The jump would have to start at the midnight itself, which is not skipped.
      DayOfMinute(change + off(c) - 1, day);
    }
  }

  /** No skip leaves the local day it starts from. */
  lemma SkipStaysOnDay(off: int -> int, c: int, t: int)
    requires ZoneClock(off)
    requires c <= t < SkipTarget(u => ZoneWall(off, u), c)
    ensures LocalDay(off, t) == LocalDay(off, c)
  {
    var candidate := MidnightAfter(off, c);
    ZoneSkipTarget(off, c);
    DaysDoNotGoBack(off, c, t);
    DaysDoNotGoBack(off, t, candidate);
    if LocalDay(off, candidate) != LocalDay(off, c) {
      var change := OffsetsWithinADay(off, c, candidate - c);
      if t < change {
        BeforeMidnight(off, c, t);
      } else {
        SkipAfterChange(off, c, t, candidate, change);
      }
    }
  }

  lemma BeforeMidnight(off: int -> int, c: int, t: int)
    requires c <= t < MidnightAfter(off, c) && off(t) == off(c)
    ensures LocalDay(off, t) == LocalDay(off, c)
  {
    DayOfMinute(LocalMinute(off, t), LocalDay(off, c));
  }

  /** On every zone clock the skips stay on one date. */
  lemma ZoneClockSkipsSafely(off: int -> int)
    requires ZoneClock(off)
    ensures SkipsStayOnDate(u => ZoneWall(off, u))
  {
    var clock := u => ZoneWall(off, u);
    forall c, t ensures SkipStaysOnDate(clock, c, t) {
      if c <= t < SkipTarget(clock, c) {
        SkipStaysOnDay(off, c, t);
      }
    }
  }

  /** In a zone: the least matching minute after `afterMs`, or none when the horizon holds none. */
  method NextCronRunInZone(m: CronMatcher, afterMs: int, off: int -> int) returns (run: Option<int>)
    ensures ZoneClock(off) ==> run == ExpectedRun(m, afterMs, t => ZoneWall(off, t))
  {
    ghost var steps;
    run, steps := NextCronRun(m, afterMs, t => ZoneWall(off, t));
    if ZoneClock(off) {
      ZoneClockSkipsSafely(off);
    }
  }

  // Clocks that the search gets wrong ------------------------------------------------------------------------------

  /** Matches the time of day, the month and the weekday of one wall clock. */
  function MatcherOf(w: WallClock): CronMatcher {
    CronMatcher({w.minute}, {w.hour}, {}, {w.month}, {w.dayOfWeek}, false, true)
  }

  /** When the date goes back after `t`, the skip from `t` passes over the next minute. */
  lemma SkipsTheDroppedDay(off: int -> int, t: int)
    requires RegularZone(off) && LocalDay(off, t) > LocalDay(off, t + 1)
    ensures LocalDay(off, t + 1) == LocalDay(off, t) - 1
    ensures SkipTarget(u => ZoneWall(off, u), t) > t + 1
  {
    var candidate := MidnightAfter(off, t);
    assert OffsetChangesAt(off, t + 1);
    SameOffsetAfter(off, t + 1, candidate);
    ZoneSkipTarget(off, t);
    DayOfMinute(LocalMinute(off, t + 1), LocalDay(off, t) - 1);
    DayOfMinute(LocalMinute(off, candidate), LocalDay(off, t));
  }

  lemma {:induction false} SameOffsetAfter(off: int -> int, change: int, t: int)
    requires RegularZone(off) && OffsetChangesAt(off, change) && change <= t < change + 1440
    ensures off(t) == off(change)
    decreases t - change
  {
    if change < t {
      SameOffsetAfter(off, change, t - 1);
      assert !OffsetChangesAt(off, t);
    }
  }

  lemma NeighboursDiffer(day: int)
    ensures WeekdayOf(day) != WeekdayOf(day - 1)
  {
  }

  /** So the schedule made for that minute runs later than it should, if at all. */
  lemma DroppedDayLosesARun(off: int -> int, t: int)
    requires RegularZone(off) && LocalDay(off, t) > LocalDay(off, t + 1)
    ensures
      var clock := u => ZoneWall(off, u);
      var m := MatcherOf(clock(t + 1));
      && ExpectedRun(m, (t - 1) * MINUTE_MS, clock) == Some((t + 1) * MINUTE_MS)
      && SearchedRun(m, (t - 1) * MINUTE_MS, clock) != Some((t + 1) * MINUTE_MS)
  {
    hide SkipTarget, ZoneWall;
    var clock := u => ZoneWall(off, u);
    var m := MatcherOf(clock(t + 1));
    SkipsTheDroppedDay(off, t);
    NeighboursDiffer(LocalDay(off, t));
    WeekdayShown(off, t);
    WeekdayShown(off, t + 1);
    assert !DayMatches(m, clock(t)) && Matches(m, clock(t + 1));
    assert (t - 1) * MINUTE_MS / MINUTE_MS + 1 == t;
    assert FirstMatch(m, clock, t, t + MAX_CRON_SEARCH_MINUTES) == Some(t + 1);
    assert Search(m, clock, t, t + MAX_CRON_SEARCH_MINUTES) ==
      Search(m, clock, SkipTarget(clock, t), t + MAX_CRON_SEARCH_MINUTES);
  }

  lemma WeekdayShown(off: int -> int, t: int)
    ensures ZoneWall(off, t).dayOfWeek == WeekdayOf(LocalDay(off, t))
  {
  }

  /** In a regular zone the search is right about every schedule, from every instant, exactly if no local date goes
      backwards. */
  lemma SearchIsRightIff(off: int -> int)
    requires RegularZone(off)
    ensures
      var clock := u => ZoneWall(off, u);
      (forall m, afterMs :: SearchedRun(m, afterMs, clock) == ExpectedRun(m, afterMs, clock)) <==> DatesGoOn(off)
  {
    hide RegularZone, SkipsStayOnDate, Search, FirstMatch;
    var clock := u => ZoneWall(off, u);
    if DatesGoOn(off) {
      ZoneClockSkipsSafely(off);
      forall m, afterMs
        ensures SearchedRun(m, afterMs, clock) == ExpectedRun(m, afterMs, clock)
      {
        var first := afterMs / MINUTE_MS + 1;
        SearchIsRight(m, clock, first, first + MAX_CRON_SEARCH_MINUTES);
      }
    } else {
      var t :| LocalDay(off, t) > LocalDay(off, t + 1);
      DroppedDayLosesARun(off, t);
    }
  }

  /** Falls back an hour one minute after the first midnight, as Newfoundland's clocks once did: the local date runs
      1 January, 2 January, 1 January, 2 January. */
  function OneMinutePastMidnight(t: int): int { if t < 1441 then 0 else -60 }

  /** From 00:00 on 2 January the search goes to 23:00 on 2 January, past 23:01 on 1 January, which is the next minute
      and the run that was due. */
  lemma BackwardDatesLoseAMatch()
    ensures
      var clock := u => ZoneWall(OneMinutePastMidnight, u);
      var due := MatcherOf(clock(1441));
      && clock(1441) == Wall(1970, 1, 1, 4, 23, 1) && clock(1440) == Wall(1970, 1, 2, 5, 0, 0)
      && ExpectedRun(due, 1439 * MINUTE_MS, clock) == Some(1441 * MINUTE_MS)
      && SearchedRun(due, 1439 * MINUTE_MS, clock) != Some(1441 * MINUTE_MS)
  {
    hide ZoneWall, ExpectedRun, SearchedRun, MatcherOf;
    NewfoundlandWalls();
    FallsBackOnce();
    DroppedDayLosesARun(OneMinutePastMidnight, 1440);
  }

  lemma NewfoundlandWalls()
    ensures ZoneWall(OneMinutePastMidnight, 1440) == Wall(1970, 1, 2, 5, 0, 0)
    ensures ZoneWall(OneMinutePastMidnight, 1441) == Wall(1970, 1, 1, 4, 23, 1)
  {
    assert DateOf(1) == NextDate(DateOf(0)) == Date(1970, 1, 2);
  }

  lemma FallsBackOnce()
    ensures RegularZone(OneMinutePastMidnight)
    ensures LocalDay(OneMinutePastMidnight, 1440) == 1 && LocalDay(OneMinutePastMidnight, 1440 + 1) == 0
  {
  }
}
