/** Reading the five fields of a cron expression. */
module CronParser {
  import opened CronSearch
  import opened Options
  import opened ScheduleProse
  import opened Sets
  import opened Strings

  /** Reads a number: the integer a text denotes, if it denotes one ("" denotes 0). */
  type Number = string -> Option<int>

  /** start, start + step, ... up to end. */
  datatype Progression = Progression(start: int, end: int, step: int)

  predicate InProgression(p: Progression, v: int) {
    p.step > 0 && v <= p.end && Multiple(v - p.start, p.step)
  }

  /** One comma-separated part: `*`, `5`, `1-5`, each optionally followed by `/step`. */
  function ParsePart(part: string, min: int, max: int, number: Number): (p: Option<Progression>)
    ensures p.Some? ==> min <= p.value.start <= p.value.end <= max && p.value.step > 0
  {
    var split := Split(part, '/');
    if |split| > 2 then None
    else
      var rangePart := split[0];
      var step := if |split| == 2 then number(split[1]) else Some(1);
      if step.None? || step.value <= 0 then None
      else
        var pieces := Split(rangePart, '-');
        var wholeRange := rangePart == "*" || rangePart == "";
        var start :=
          if wholeRange then Some(min)
          else if '-' in rangePart then number(pieces[0])
          else number(rangePart);
        var end :=
          if wholeRange then Some(max)
          else if '-' in rangePart then (if |pieces| > 1 then number(pieces[1]) else None)
          else if |split| == 2 then Some(max)
          else start;
        if start.None? || end.None? || start.value < min || end.value > max || start.value > end.value then None
        else Some(Progression(start.value, end.value, step.value))
  }

  /** A part as it is meant: everything, one value or a range, with or without a step. */
  datatype Range = Everything | One(value: string) | FromTo(first: string, last: string)

  predicate IsNumeral(text: string) { text != "" && text != "*" && '/' !in text && '-' !in text }

  predicate WellWritten(range: Range, step: string) {
    && '/' !in step
    && match range
       case Everything => true
       case One(value) => IsNumeral(value)
       case FromTo(first, last) => '/' !in first && '-' !in first && '/' !in last && '-' !in last
  }

  function RangeText(range: Range): string {
    match range
    case Everything => "*"
    case One(value) => value
    case FromTo(first, last) => first + ['-'] + last
  }

  /** The bounds that are meant: a single value with a step goes on to the end of the field. */
  function Bounds(range: Range, stepped: bool, min: int, max: int, number: Number): (Option<int>, Option<int>) {
    match range
    case Everything => (Some(min), Some(max))
    case One(value) => (number(value), if stepped then Some(max) else number(value))
    case FromTo(first, last) => (number(first), number(last))
  }

  function Meant(range: Range, step: Option<int>, stepped: bool, min: int, max: int,
      number: Number): Option<Progression> {
    var (start, end) := Bounds(range, stepped, min, max, number);
    if step.Some? && step.value > 0 && start.Some? && end.Some? && min <= start.value <= end.value <= max then
      Some(Progression(start.value, end.value, step.value))
    else None
  }

  lemma RangeTextMeaning(range: Range, step: string)
    requires WellWritten(range, step)
    ensures '/' !in RangeText(range) && (RangeText(range) == "*" <==> range.Everything?) && RangeText(range) != ""
    ensures '-' in RangeText(range) <==> range.FromTo?
    ensures range.FromTo? ==> Split(RangeText(range), '-') == [range.first, range.last]
  {
    if range.FromTo? {
      SplitAtSeparator(range.first, range.last, '-');
      SplitWhole(range.first, '-');
      SplitWhole(range.last, '-');
      assert RangeText(range)[|range.first|] == '-';
    }
  }

  /** A part that is written as meant is read as meant, with a step and without one. */
  lemma PartsAreReadAsMeant(range: Range, step: string, min: int, max: int, number: Number)
    requires WellWritten(range, step)
    ensures ParsePart(RangeText(range), min, max, number) == Meant(range, Some(1), false, min, max, number)
    ensures ParsePart(RangeText(range) + ['/'] + step, min, max, number) ==
      Meant(range, number(step), true, min, max, number)
  {
    hide Split, RangeText;
    var text := RangeText(range);
    RangeTextMeaning(range, step);
    assert range.One? ==> text == range.value by { OneIsItsText(range); }
    SplitWhole(text, '/');
    SplitWhole(step, '/');
    SplitAtSeparator(text, step, '/');
  }

  lemma OneIsItsText(range: Range)
    ensures range.One? ==> RangeText(range) == range.value
  {
  }

  /** Nothing written for the range is everything. */
  lemma NothingIsEverything(step: string, min: int, max: int, number: Number)
    requires '/' !in step
    ensures ParsePart("", min, max, number) == Meant(Everything, Some(1), false, min, max, number)
    ensures ParsePart(['/'] + step, min, max, number) == Meant(Everything, number(step), true, min, max, number)
  {
    hide Split;
    SplitWhole("", '/');
    SplitWhole(step, '/');
    SplitAtSeparator("", step, '/');
    assert [] + ['/'] + step == ['/'] + step;
  }

  /** A second slash, wherever it is, has the part refused. */
  lemma SecondSlashIsRefused(range: string, step: string, rest: string, min: int, max: int, number: Number)
    ensures ParsePart(range + ['/'] + (step + ['/'] + rest), min, max, number).None?
  {
    hide Split;
    SplitAtSeparator(range, step + ['/'] + rest, '/');
    SplitAtSeparator(step, rest, '/');
  }

  /** What follows a second hyphen is not looked at: `1-5-x` is read as `1-5`. */
  lemma SecondHyphenIsNotRead(first: string, last: string, rest: string, min: int, max: int, number: Number)
    requires WellWritten(FromTo(first, last), "") && '/' !in rest
    ensures ParsePart(first + ['-'] + (last + ['-'] + rest), min, max, number) ==
      Meant(FromTo(first, last), Some(1), false, min, max, number)
  {
    hide Split;
    var text := first + ['-'] + (last + ['-'] + rest);
    assert text[|first|] == '-' && '/' !in text;
    SplitWhole(text, '/');
    SplitAtSeparator(first, last + ['-'] + rest, '-');
    SplitAtSeparator(last, rest, '-');
    SplitWhole(first, '-');
    SplitWhole(last, '-');
    assert text != "*" && text != "";
  }

  predicate PartAccepts(part: string, min: int, max: int, number: Number, v: int) {
    var p := ParsePart(part, min, max, number);
    p.Some? && InProgression(p.value, v)
  }

  predicate FieldValid(field: string, min: int, max: int, number: Number) {
    forall part :: part in Split(field, ',') ==> ParsePart(part, min, max, number).Some?
  }

  predicate FieldAccepts(field: string, min: int, max: int, number: Number, v: int) {
    exists part :: part in Split(field, ',') && PartAccepts(part, min, max, number, v)
  }

  lemma {:induction false} MultipleIsNonNegative(a: int, step: int)
    requires step > 0 && Multiple(a, step)
    ensures a >= 0
  {
  }

  lemma {:induction false} NextMultiple(a: int, b: int, step: int)
    requires step > 0 && Multiple(a, step) && a <= b < a + step
    ensures Multiple(b, step) <==> b == a
    decreases a
  {
    if a > 0 {
      NextMultiple(a - step, b - step, step);
    }
  }

  lemma StepWithinProgression(p: Progression, value: int, v: int)
    requires p.step > 0 && Multiple(value - p.start, p.step) && value <= v < value + p.step && value <= p.end
    ensures InProgression(p, v) <==> v == value
  {
    NextMultiple(value - p.start, v - p.start, p.step);
  }

  /** The values of one part, added to those found so far. */
  method AddValues(p: Progression, before: set<int>) returns (found: set<int>)
    requires p.step > 0
    ensures forall v :: v in found <==> v in before || InProgression(p, v)
  {
    found := before;
    var value := p.start;
    while value <= p.end
      invariant Multiple(value - p.start, p.step)
      invariant forall v :: v in found <==> v in before || (v < value && InProgression(p, v))
      decreases p.end - value
    {
      found := found + {value};
      forall v | value <= v < value + p.step ensures InProgression(p, v) <==> v == value {
        StepWithinProgression(p, value, v);
      }
      value := value + p.step;
    }
  }

  /** The set grows part by part; a field is refused exactly when one of its parts is. */
  method ParseCronField(field: string, min: int, max: int, number: Number) returns (values: Option<set<int>>)
    ensures values.Some? <==> FieldValid(field, min, max, number)
    ensures values.Some? ==> Within(values.value, min, max)
    ensures values.Some? ==>
      forall v :: v in values.value <==> FieldAccepts(field, min, max, number, v)
  {
    hide ParsePart, InProgression, Multiple;
    var parts := Split(field, ',');
    var found: set<int> := {};
    for i := 0 to |parts|
      invariant forall j :: 0 <= j < i ==> ParsePart(parts[j], min, max, number).Some?
      invariant i > 0 ==> found != {}
      invariant forall v :: v in found <==> exists j :: 0 <= j < i && PartAccepts(parts[j], min, max, number, v)
    {
      var p := ParsePart(parts[i], min, max, number);
      if p.None? {
        return None;
      }
      found := AddValues(p.value, found);
      StartsItself(p.value);
      assert p.value.start in found;
    }
    forall v | v in found ensures min <= v <= max {
      var j :| 0 <= j < |parts| && PartAccepts(parts[j], min, max, number, v);
      StaysInRange(parts[j], min, max, number, v);
    }
    values := if found == {} then None else Some(found);
  }

  lemma StartsItself(p: Progression)
    requires p.step > 0 && p.start <= p.end
    ensures InProgression(p, p.start)
  {
  }

  lemma StaysInRange(part: string, min: int, max: int, number: Number, v: int)
    requires PartAccepts(part, min, max, number, v)
    ensures min <= v <= max
  {
    hide ParsePart;
    var p := ParsePart(part, min, max, number).value;
    MultipleIsNonNegative(v - p.start, p.step);
  }

  /** A starred field takes its whole range. */
  lemma StarCovers(min: int, max: int, number: Number, v: int)
    requires min <= v <= max
    ensures FieldAccepts("*", min, max, number, v)
  {
    SplitWhole("*", ',');
    SplitWhole("*", '/');
    assert ParsePart("*", min, max, number) == Some(Progression(min, max, 1));
    MultipleOfOne(v - min);
    assert "*" in Split("*", ',');
    assert PartAccepts("*", min, max, number, v);
  }

  /** What the parser guarantees of the sets and of the two flags. */
  ghost predicate ParsedFrom(m: CronMatcher, fields: seq<string>, number: Number)
    requires |fields| == 5
  {
    && WellFormed(m)
    && (forall v :: v in m.minute <==> FieldAccepts(fields[0], 0, 59, number, v))
    && (forall v :: v in m.hour <==> FieldAccepts(fields[1], 0, 23, number, v))
    && (forall v :: v in m.dayOfMonth <==> FieldAccepts(fields[2], 1, 31, number, v))
    && (forall v :: v in m.month <==> FieldAccepts(fields[3], 1, 12, number, v))
    && (forall v :: v in m.dayOfWeek <==>
          (v < 7 && FieldAccepts(fields[4], 0, 7, number, v)) || (v == 0 && FieldAccepts(fields[4], 0, 7, number, 7)))
    && m.isDayOfMonthRestricted == (fields[2] != "*")
    && m.isDayOfWeekRestricted == (fields[4] != "*")
  }

  method ParseCron(expression: string, number: Number) returns (matcher: Option<CronMatcher>)
    ensures
      var fields := Split(expression, ' ');
      matcher.Some? <==>
        && |fields| == 5
        && FieldValid(fields[0], 0, 59, number) && FieldValid(fields[1], 0, 23, number)
        && FieldValid(fields[2], 1, 31, number) && FieldValid(fields[3], 1, 12, number)
        && FieldValid(fields[4], 0, 7, number)
    ensures matcher.Some? ==> ParsedFrom(matcher.value, Split(expression, ' '), number)
  {
    hide FieldAccepts, FieldValid, Split;
    var fields := Split(expression, ' ');
    if |fields| != 5 {
      return None;
    }
    var minute := ParseCronField(fields[0], 0, 59, number);
    var hour := ParseCronField(fields[1], 0, 23, number);
    var dayOfMonth := ParseCronField(fields[2], 1, 31, number);
    var month := ParseCronField(fields[3], 1, 12, number);
    var rawDow := ParseCronField(fields[4], 0, 7, number);
    if minute.None? || hour.None? || dayOfMonth.None? || month.None? || rawDow.None? {
      return None;
    }
    var dayOfWeek := set day | day in rawDow.value :: if day == 7 then 0 else day;
    var someDay := Pick(rawDow.value);
    assert (if someDay == 7 then 0 else someDay) in dayOfWeek;
    matcher := Some(CronMatcher(minute.value, hour.value, dayOfMonth.value, month.value, dayOfWeek,
                                fields[2] != "*", fields[4] != "*"));
  }

  /** The day rule of crontab: if both day fields are written out either may match, otherwise both must, where a
      starred field matches every day. */
  lemma CrontabDayRule(m: CronMatcher, fields: seq<string>, number: Number, w: WallClock)
    requires |fields| == 5 && ParsedFrom(m, fields, number) && ValidWall(w)
    ensures DayMatches(m, w) <==>
      && FieldAccepts(fields[3], 1, 12, number, w.month)
      && var dom := FieldAccepts(fields[2], 1, 31, number, w.dayOfMonth);
         var dow := FieldAccepts(fields[4], 0, 7, number, w.dayOfWeek) ||
                    (w.dayOfWeek == 0 && FieldAccepts(fields[4], 0, 7, number, 7));
         if fields[2] != "*" && fields[4] != "*" then dom || dow else dom && dow
  {
    hide FieldAccepts;
    StarCovers(1, 31, number, w.dayOfMonth);
    StarCovers(0, 7, number, w.dayOfWeek);
  }
}
