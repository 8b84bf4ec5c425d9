/** The block of fields at the head of a workflow file: an indentation-stack parser and a recursive printer. */
module Frontmatter {

  import opened Options
  import opened ScalarText
  import opened Strings

  /** A record's own fields, in order; a record inside another is a value. */
  datatype Value = Scalar(leaf: Leaf) | Record(fields: seq<Field>)
  datatype Field = Field(key: string, value: Value)

  /** Assigning to this key sets the prototype instead of a field. */
  const PROTOTYPE_KEY := "__proto__"

  predicate HasKey(fields: seq<Field>, key: string) { exists i :: 0 <= i < |fields| && fields[i].key == key }

  function Lookup(fields: seq<Field>, key: string): Option<Value> {
    if fields == [] then None
    else if fields[|fields| - 1].key == key then Some(fields[|fields| - 1].value)
    else Lookup(fields[..|fields| - 1], key)
  }

  /** An existing field keeps its place. */
  function Set(fields: seq<Field>, key: string, value: Value): seq<Field> {
    if fields == [] then [Field(key, value)]
    else if fields[|fields| - 1].key == key then fields[..|fields| - 1] + [Field(key, value)]
    else if HasKey(fields, key) then Set(fields[..|fields| - 1], key, value) + [fields[|fields| - 1]]
    else fields + [Field(key, value)]
  }

  function Assign(fields: seq<Field>, key: string, value: Value): seq<Field> {
    if key == PROTOTYPE_KEY then fields else Set(fields, key, value)
  }

  // One line ---------------------------------------------------------------------------------------------------------

  datatype Line = Line(indent: nat, key: string, tail: string)

  function IndexOf(s: string, c: char): (n: nat)
    ensures n <= |s| && c !in s[..n] && (n < |s| ==> s[n] == c)
  {
    if s == [] || s[0] == c then 0
    else
      var n := IndexOf(s[1..], c);
      assert s[..1 + n] == [s[0]] + s[1..][..n];
      1 + n
  }

  /** A key up to the first colon, and what follows it. A blank line, a comment, a line without a key, and a line whose
      value holds a line terminator that is not at its start are no fields. */
  function ParseLine(raw: string): Option<Line> {
    var text := TrimStart(raw);
    var colon := IndexOf(raw, ':');
    if text == [] || text[0] == '#' || colon == |raw| || IsBlank(raw[..colon]) then None
    else
      var tail := TrimStart(raw[colon + 1..]);
      if HasLineTerminator(tail) then None
      else Some(Line(|raw| - |text|, Trim(raw[..colon]), tail))
  }

  // The stack --------------------------------------------------------------------------------------------------------

  /** A record under construction: where it was opened, and its key in the record below it. */
  datatype Frame = Frame(indent: int, key: string, fields: seq<Field>)

  ghost predicate IsStack(stack: seq<Frame>) {
    stack != [] && stack[0].indent == -1 && forall i :: 0 < i < |stack| ==> stack[i].indent >= 0
  }

  /** Drops the top record, which the record below it holds. */
  function Close(stack: seq<Frame>): seq<Frame>
    requires |stack| >= 2
  {
    var top, below := stack[|stack| - 1], stack[|stack| - 2];
    stack[..|stack| - 2] + [below.(fields := Assign(below.fields, top.key, Record(top.fields)))]
  }

  function PopTo(stack: seq<Frame>, indent: nat): (r: seq<Frame>)
    requires IsStack(stack)
    ensures IsStack(r) && r[|r| - 1].indent < indent
    decreases |stack|
  {
    if stack[|stack| - 1].indent < indent then stack else PopTo(Close(stack), indent)
  }

  function Put(stack: seq<Frame>, key: string, value: Value): seq<Frame>
    requires stack != []
  {
    var top := stack[|stack| - 1];
    stack[..|stack| - 1] + [top.(fields := Assign(top.fields, key, value))]
  }

  function Feed(stack: seq<Frame>, raw: string): (r: seq<Frame>)
    requires IsStack(stack)
    ensures IsStack(r)
  {
    hide ParseLine, Read, IsBlank, Assign;
    match ParseLine(raw)
    case None => stack
    case Some(Line(indent, key, tail)) =>
      var parent := PopTo(stack, indent);
      if IsBlank(tail) then Put(parent, key, Record([])) + [Frame(indent, key, [])]
      else Put(parent, key, Scalar(Read(tail)))
  }

  function FeedAll(stack: seq<Frame>, lines: seq<string>): (r: seq<Frame>)
    requires IsStack(stack)
    ensures IsStack(r)
  {
    if lines == [] then stack else Feed(FeedAll(stack, lines[..|lines| - 1]), lines[|lines| - 1])
  }

  /** All records closed: the fields of the root. */
  function Whole(stack: seq<Frame>): seq<Field>
    requires IsStack(stack)
  {
    PopTo(stack, 0)[0].fields
  }

  const EMPTY_STACK: seq<Frame> := [Frame(-1, "", [])]

  /** Without the carriage return at the end of each part but the last. */
  function Stripped(parts: seq<string>): seq<string> {
    seq(|parts|, i requires 0 <= i < |parts| =>
      if i < |parts| - 1 && parts[i] != [] && parts[i][|parts[i]| - 1] == '\r' then parts[i][..|parts[i]| - 1]
      else parts[i])
  }

  /** The lines of a text; a carriage return before a line feed belongs to the separator. */
  function Lines(text: string): seq<string> { Stripped(Split(text, '\n')) }

  function FieldsIn(text: string): seq<Field> { Whole(FeedAll(EMPTY_STACK, Lines(text))) }

  method PopStack(stack: seq<Frame>, indent: nat) returns (r: seq<Frame>)
    requires IsStack(stack)
    ensures r == PopTo(stack, indent)
  {
    hide Close, IsStack;
    r := stack;
    StackBase(r);
    while r[|r| - 1].indent >= indent
      invariant IsStack(r) && |r| >= 1 && PopTo(r, indent) == PopTo(stack, indent)
      decreases |r|
    {
      StackBase(r);
      r := Close(r);
    }
  }

  lemma StackBase(stack: seq<Frame>)
    requires IsStack(stack)
    ensures |stack| >= 1
    ensures stack[|stack| - 1].indent >= 0 ==> |stack| >= 2 && IsStack(Close(stack)) && |Close(stack)| == |stack| - 1
  {
  }

  method ParseFrontmatter(text: string) returns (root: seq<Field>)
    ensures root == FieldsIn(text)
  {
    hide Lines, ParseLine, Read, IsBlank, Assign, PopTo;
    var lines := Lines(text);
    var stack := EMPTY_STACK;
    for i := 0 to |lines|
      invariant IsStack(stack) && stack == FeedAll(EMPTY_STACK, lines[..i])
    {
      assert lines[..i + 1][..i] == lines[..i];
      var parsed := ParseLine(lines[i]);
      if parsed.None? {
        continue;
      }
      var Line(indent, key, tail) := parsed.value;
      stack := PopStack(stack, indent);
      if IsBlank(tail) {
        stack := Put(stack, key, Record([])) + [Frame(indent, key, [])];
      } else {
        stack := Put(stack, key, Scalar(Read(tail)));
      }
    }
    assert lines[..|lines|] == lines;
    stack := PopStack(stack, 0);
    return stack[0].fields;
  }

  // The printer ------------------------------------------------------------------------------------------------------

  function Spaces(n: nat): (s: string)
    ensures |s| == n && forall i :: 0 <= i < n ==> s[i] == ' '
  {
    seq(n, i => ' ')
  }

  function Emit(fields: seq<Field>, indent: nat): seq<string>
    decreases fields
  {
    if fields == [] then []
    else
      var front, last := fields[..|fields| - 1], fields[|fields| - 1];
      Emit(front, indent) +
      match last.value
      case Scalar(leaf) => [Spaces(indent) + last.key + ": " + Print(leaf)]
      case Record(inner) => [Spaces(indent) + last.key + ":"] + Emit(inner, indent + 2)
  }

  method EmitYaml(fields: seq<Field>, indent: nat) returns (lines: seq<string>)
    ensures lines == Emit(fields, indent)
    decreases fields
  {
    lines := [];
    for i := 0 to |fields|
      invariant lines == Emit(fields[..i], indent)
    {
      assert fields[..i + 1][..i] == fields[..i];
      var Field(key, value) := fields[i];
      match value {
        case Record(inner) =>
          lines := lines + [Spaces(indent) + key + ":"];
          var nested := EmitYaml(inner, indent + 2);
          lines := lines + nested;
        case Scalar(leaf) =>
          lines := lines + [Spaces(indent) + key + ": " + Print(leaf)];
      }
    }
    assert fields[..|fields|] == fields;
  }

  // What the printer may be given ------------------------------------------------------------------------------------

  predicate GoodKey(key: string) {
    && key != [] && IsTrimmed(key) && key[0] != '#' && key != PROTOTYPE_KEY
    && ':' !in key && '\n' !in key
  }

  ghost predicate Good(fields: seq<Field>)
    decreases fields
  {
    fields != [] ==>
      var front, last := fields[..|fields| - 1], fields[|fields| - 1];
      && Good(front) && GoodKey(last.key) && !HasKey(front, last.key)
      && match last.value
         case Scalar(leaf) => ValidLeaf(leaf)
         case Record(inner) => Good(inner)
  }

  /** What is read back: a scalar whose text has a separator is lost, and some are read as other scalars. */
  function Recovered(fields: seq<Field>): seq<Field>
    decreases fields
  {
    if fields == [] then []
    else
      var last := fields[|fields| - 1];
      Recovered(fields[..|fields| - 1]) +
      match last.value
      case Scalar(leaf) => if HasSeparator(Print(leaf)) then [] else [Field(last.key, Scalar(Read(Print(leaf))))]
      case Record(inner) => [Field(last.key, Record(Recovered(inner)))]
  }

  // Lines are read as they were printed ------------------------------------------------------------------------------

  lemma TrimOne(s: string)
    requires s != [] && IsSpace(s[0])
    ensures TrimStart(s) == TrimStart(s[1..])
  {
    hide IsSpace;
  }

  lemma {:induction false} TrimIndent(n: nat, s: string)
    requires s != [] && !IsSpace(s[0])
    ensures TrimStart(Spaces(n) + s) == s
  {
    assert IsSpace(' ') && TrimStart(s) == s;
    hide IsSpace, TrimStart;
    if n == 0 {
      assert Spaces(n) + s == s;
    } else {
      TrimIndent(n - 1, s);
      var text := Spaces(n) + s;
      assert text[1..] == Spaces(n - 1) + s;
      assert text[0] == ' ';
      TrimOne(text);
    }
  }

  lemma {:induction false} FirstAt(before: string, c: char, after: string)
    requires c !in before
    ensures IndexOf(before + [c] + after, c) == |before|
  {
    var s := before + [c] + after;
    if before != [] {
      FirstAt(before[1..], c, after);
      assert s[1..] == before[1..] + [c] + after;
    }
  }

  lemma KeyStarts(key: string)
    requires GoodKey(key)
    ensures key != [] && !IsSpace(key[0]) && key[0] != '#'
  {
  }

  lemma IndentedKey(key: string, indent: nat)
    requires GoodKey(key)
    ensures var before := Spaces(indent) + key; ':' !in before && !IsBlank(before) && Trim(before) == key
  {
    TrimIndent(indent, key);
    assert (Spaces(indent) + key)[indent] == key[0];
  }

  lemma KeyLine(key: string, indent: nat, rest: string)
    requires GoodKey(key)
    ensures
      var tail := TrimStart(rest);
      ParseLine(Spaces(indent) + key + ":" + rest) ==
      if HasLineTerminator(tail) then None else Some(Line(indent, key, tail))
  {
    hide IsSpace, HasLineTerminator, Trim, TrimStart, IsBlank, GoodKey, IndexOf, Spaces, ParseLine;
    var before := Spaces(indent) + key;
    KeyStarts(key);
    IndentedKey(key, indent);
    FirstAt(before, ':', rest);
    KeyText(Spaces(indent), key, rest);
    TrimIndent(indent, key + ":" + rest);
    LineAt(before, rest, key + ":" + rest);
  }

  lemma KeyText(spaces: string, key: string, rest: string)
    requires key != []
    ensures spaces + key + ":" + rest == spaces + key + [':'] + rest == spaces + (key + ":" + rest)
    ensures (key + ":" + rest)[0] == key[0]
  {
  }

  lemma LineAt(before: string, rest: string, text: string)
    requires TrimStart(before + [':'] + rest) == text && IndexOf(before + [':'] + rest, ':') == |before|
    requires text != [] && text[0] != '#' && !IsBlank(before)
    ensures
      var (raw, tail) := (before + [':'] + rest, TrimStart(rest));
      ParseLine(raw) == if HasLineTerminator(tail) then None else Some(Line(|raw| - |text|, Trim(before), tail))
  {
    hide IsSpace, HasLineTerminator, Trim, TrimStart, IsBlank, IndexOf, ParseLine;
    Around(before, ':', rest);
    LineIs(before + [':'] + rest, text, |before|);
  }

  lemma Around(before: string, c: char, rest: string)
    ensures var raw := before + [c] + rest; raw[..|before|] == before && raw[|before| + 1..] == rest
  {
  }

  lemma LineIs(raw: string, text: string, colon: nat)
    requires TrimStart(raw) == text && IndexOf(raw, ':') == colon < |raw|
    requires text != [] && text[0] != '#' && !IsBlank(raw[..colon]) && |text| <= |raw|
    ensures
      var tail := TrimStart(raw[colon + 1..]);
      ParseLine(raw) == if HasLineTerminator(tail) then None else Some(Line(|raw| - |text|, Trim(raw[..colon]), tail))
  {
    hide IsSpace, HasLineTerminator, Trim, TrimStart, IsBlank, IndexOf;
  }

  lemma RecordLine(key: string, indent: nat)
    requires GoodKey(key)
    ensures ParseLine(Spaces(indent) + key + ":") == Some(Line(indent, key, ""))
  {
    KeyLine(key, indent, "");
    assert Spaces(indent) + key + ":" + "" == Spaces(indent) + key + ":";
  }

  lemma TerminatorsAreSeparators(s: string)
    requires '\n' !in s && '\r' !in s
    ensures HasLineTerminator(s) <==> HasSeparator(s)
  {
    if i :| 0 <= i < |s| && IsLineTerminator(s[i]) {
      assert s[i] in s;
    }
    if HasSeparator(s) {
      var i :| 0 <= i < |s| && (s[i] == '\U{2028}' || s[i] == '\U{2029}');
      assert IsLineTerminator(s[i]);
    }
  }

  lemma ScalarLine(key: string, indent: nat, printed: string)
    requires GoodKey(key) && printed != [] && IsTrimmed(printed) && '\n' !in printed && '\r' !in printed
    ensures ParseLine(Spaces(indent) + key + ": " + printed) ==
      if HasSeparator(printed) then None else Some(Line(indent, key, printed))
  {
    hide GoodKey, ParseLine, IsSpace, HasLineTerminator, HasSeparator, TrimStart;
    TerminatorsAreSeparators(printed);
    KeyLine(key, indent, " " + printed);
    TrimIndent(1, printed);
    assert Spaces(1) + printed == " " + printed;
    assert Spaces(indent) + key + ":" + (" " + printed) == Spaces(indent) + key + ": " + printed;
  }

  // The stack follows the tree ---------------------------------------------------------------------------------------

  function Extended(stack: seq<Frame>, more: seq<Field>): seq<Frame>
    requires stack != []
  {
    var top := stack[|stack| - 1];
    stack[..|stack| - 1] + [top.(fields := top.fields + more)]
  }

  lemma {:induction false} PopToTwice(stack: seq<Frame>, more: nat, indent: nat)
    requires IsStack(stack) && indent <= more
    ensures PopTo(PopTo(stack, more), indent) == PopTo(stack, indent)
    decreases |stack|
  {
    hide Close;
    StackBase(stack);
    if stack[|stack| - 1].indent >= more {
      PopToTwice(Close(stack), more, indent);
    }
  }

  lemma {:induction false} FeedConcat(stack: seq<Frame>, a: seq<string>, b: seq<string>)
    requires IsStack(stack)
    ensures FeedAll(stack, a + b) == FeedAll(FeedAll(stack, a), b)
  {
    hide Feed, IsStack;
    if b == [] {
      assert a + b == a;
    } else {
      FeedConcat(stack, a, b[..|b| - 1]);
      assert (a + b)[..|a + b| - 1] == a + b[..|b| - 1];
    }
  }

  lemma {:induction false} SetNew(fields: seq<Field>, key: string, value: Value)
    requires !HasKey(fields, key)
    ensures Set(fields, key, value) == fields + [Field(key, value)]
  {
  }

  lemma SetLast(fields: seq<Field>, key: string, was: Value, value: Value)
    ensures Set(fields + [Field(key, was)], key, value) == fields + [Field(key, value)]
  {
  }

  lemma {:induction false} RecoveredKeys(fields: seq<Field>, key: string)
    requires !HasKey(fields, key)
    ensures !HasKey(Recovered(fields), key)
  {
    if fields != [] {
      var front := fields[..|fields| - 1];
      assert forall i :: 0 <= i < |front| ==> front[i] == fields[i];
      RecoveredKeys(front, key);
    }
  }

  ghost predicate NewKeys(stack: seq<Frame>, fields: seq<Field>)
    requires stack != []
  {
    forall i :: 0 <= i < |fields| ==> !HasKey(stack[|stack| - 1].fields, fields[i].key)
  }

  /** Feeding the lines of some fields leaves, once what they opened is closed, the record they belong to with those
      fields added, as they are read back. */
  lemma {:induction false} FeedEmit(stack: seq<Frame>, fields: seq<Field>, indent: nat)
    requires IsStack(stack) && Good(fields) && NewKeys(PopTo(stack, indent), fields)
    ensures PopTo(FeedAll(stack, Emit(fields, indent)), indent) == Extended(PopTo(stack, indent), Recovered(fields))
    decreases fields
  {
    hide PopTo, Feed, GoodKey, Extended, HasKey, Print, Read, FeedAll;
    if fields == [] {
      FeedNone(stack);
      ExtendedByNone(PopTo(stack, indent));
    } else {
      var front, last := fields[..|fields| - 1], fields[|fields| - 1];
      assert NewKeys(PopTo(stack, indent), front);
      FeedEmit(stack, front, indent);
      var before := FeedAll(stack, Emit(front, indent));
      var parent := Extended(PopTo(stack, indent), Recovered(front));
      StillNew(stack, fields, indent);
      match last.value
      case Scalar(leaf) =>
        var line := Spaces(indent) + last.key + ": " + Print(leaf);
        FeedConcat(stack, Emit(front, indent), [line]);
        FeedOne(before, line);
        FeedScalar(before, parent, last.key, leaf, indent);
        ExtendedTwice(PopTo(stack, indent), Recovered(front), if HasSeparator(Print(leaf)) then []
          else [Field(last.key, Scalar(Read(Print(leaf))))]);
      case Record(inner) =>
        var line := Spaces(indent) + last.key + ":";
        FeedConcat(stack, Emit(front, indent), [line] + Emit(inner, indent + 2));
        FeedConcat(before, [line], Emit(inner, indent + 2));
        FeedOne(before, line);
        FeedRecord(before, parent, last.key, indent);
        var grown := Feed(before, line);
        NoKeysYet(PopTo(grown, indent + 2), inner);
        FeedEmit(grown, inner, indent + 2);
        CloseRecord(parent, last.key, indent, inner, FeedAll(grown, Emit(inner, indent + 2)));
        ExtendedTwice(PopTo(stack, indent), Recovered(front), [Field(last.key, Record(Recovered(inner)))]);
    }
  }

  lemma NoKeysYet(stack: seq<Frame>, fields: seq<Field>)
    requires stack != [] && stack[|stack| - 1].fields == []
    ensures NewKeys(stack, fields)
  {
  }

  lemma FeedNone(stack: seq<Frame>)
    requires IsStack(stack)
    ensures FeedAll(stack, []) == stack
  {
  }

  lemma FeedOne(stack: seq<Frame>, line: string)
    requires IsStack(stack)
    ensures FeedAll(stack, [line]) == Feed(stack, line)
  {
    assert FeedAll(stack, []) == stack;
    assert [line][..0] == [];
  }

  lemma ExtendedTwice(stack: seq<Frame>, a: seq<Field>, b: seq<Field>)
    requires stack != []
    ensures Extended(Extended(stack, a), b) == Extended(stack, a + b)
  {
    var top := stack[|stack| - 1];
    assert top.fields + (a + b) == top.fields + a + b;
  }

  lemma ExtendedByNone(stack: seq<Frame>)
    requires stack != []
    ensures Extended(stack, []) == stack
  {
    var top := stack[|stack| - 1];
    assert top.fields + [] == top.fields;
  }

  lemma StillNew(stack: seq<Frame>, fields: seq<Field>, indent: nat)
    requires IsStack(stack) && Good(fields) && fields != [] && NewKeys(PopTo(stack, indent), fields)
    ensures
      var front, key := fields[..|fields| - 1], fields[|fields| - 1].key;
      var parent := Extended(PopTo(stack, indent), Recovered(front));
      !HasKey(parent[|parent| - 1].fields, key)
  {
    var front, key := fields[..|fields| - 1], fields[|fields| - 1].key;
    assert !HasKey(front, key);
    hide PopTo, Recovered, Good;
    RecoveredKeys(front, key);
    var top := PopTo(stack, indent)[|PopTo(stack, indent)| - 1];
    assert !HasKey(top.fields, key);
    assert forall i :: 0 <= i < |top.fields + Recovered(front)| ==> (top.fields + Recovered(front))[i].key != key;
  }

  lemma PutNew(parent: seq<Frame>, key: string, value: Value)
    requires parent != [] && GoodKey(key) && !HasKey(parent[|parent| - 1].fields, key)
    ensures Put(parent, key, value) == Extended(parent, [Field(key, value)])
  {
    SetNew(parent[|parent| - 1].fields, key, value);
  }

  lemma FeedScalar(before: seq<Frame>, parent: seq<Frame>, key: string, leaf: Leaf, indent: nat)
    requires IsStack(before) && PopTo(before, indent) == parent && GoodKey(key) && ValidLeaf(leaf)
    requires !HasKey(parent[|parent| - 1].fields, key)
    ensures
      var after := Feed(before, Spaces(indent) + key + ": " + Print(leaf));
      PopTo(after, indent) ==
      if HasSeparator(Print(leaf)) then Extended(parent, [])
        else Extended(parent, [Field(key, Scalar(Read(Print(leaf))))])
  {
    hide Print, Read, ParseLine, HasKey, GoodKey, IsSpace, HasSeparator, Put, Extended;
    PrintFitsALine(leaf);
    ScalarLine(key, indent, Print(leaf));
    assert !IsBlank(Print(leaf));
    PutNew(parent, key, Scalar(Read(Print(leaf))));
    SameTop(parent, [Field(key, Scalar(Read(Print(leaf))))], indent);
    ExtendedByNone(parent);
  }

  lemma SameTop(parent: seq<Frame>, more: seq<Field>, indent: nat)
    requires IsStack(parent) && parent[|parent| - 1].indent < indent
    ensures IsStack(Extended(parent, more)) && PopTo(Extended(parent, more), indent) == Extended(parent, more)
  {
  }

  lemma FeedRecord(before: seq<Frame>, parent: seq<Frame>, key: string, indent: nat)
    requires IsStack(before) && PopTo(before, indent) == parent && GoodKey(key)
    requires !HasKey(parent[|parent| - 1].fields, key)
    ensures
      var grown := Extended(parent, [Field(key, Record([]))]) + [Frame(indent, key, [])];
      IsStack(grown) && Feed(before, Spaces(indent) + key + ":") == grown && PopTo(grown, indent + 2) == grown
  {
    hide ParseLine, HasKey, GoodKey, Put;
    RecordLine(key, indent);
    PutNew(parent, key, Record([]));
  }

  lemma CloseRecord(parent: seq<Frame>, key: string, indent: nat, inner: seq<Field>, after: seq<Frame>)
    requires IsStack(parent) && parent[|parent| - 1].indent < indent && IsStack(after) && GoodKey(key)
    requires PopTo(after, indent + 2) ==
      Extended(Extended(parent, [Field(key, Record([]))]) + [Frame(indent, key, [])], Recovered(inner))
    ensures PopTo(after, indent) == Extended(parent, [Field(key, Record(Recovered(inner)))])
  {
    hide Recovered, Set;
    PopToTwice(after, indent + 2, indent);
    var closing := PopTo(after, indent + 2);
    var fields := parent[|parent| - 1].fields;
    SetLast(fields, key, Record([]), Record(Recovered(inner)));
    assert [] + Recovered(inner) == Recovered(inner);
    assert closing[..|closing| - 2] == parent[..|parent| - 1];
    assert Close(closing) == Extended(parent, [Field(key, Record(Recovered(inner)))]);
    SameTop(parent, [Field(key, Record(Recovered(inner)))], indent);
  }

  // Indentation ------------------------------------------------------------------------------------------------------

  /** Each open record is indented deeper than the one it is in. */
  ghost predicate Deepens(stack: seq<Frame>) {
    forall i, j :: 0 <= i < j < |stack| ==> stack[i].indent < stack[j].indent
  }

  /** A line closes exactly the records that are not indented less than itself. */
  lemma {:induction false} ClosesWhatIsNotShallower(stack: seq<Frame>, indent: nat)
    requires IsStack(stack) && Deepens(stack)
    ensures
      var r := PopTo(stack, indent);
      && |r| <= |stack| && Deepens(r)
      && (forall i :: 0 <= i < |r| ==> r[i].indent == stack[i].indent && r[i].key == stack[i].key)
      && (forall i :: 0 <= i < |stack| ==> (i < |r| <==> stack[i].indent < indent))
    decreases |stack|
  {
    hide Assign;
    StackBase(stack);
    if stack[|stack| - 1].indent >= indent {
      var closed := Close(stack);
      assert forall i :: 0 <= i < |closed| ==> closed[i].indent == stack[i].indent && closed[i].key == stack[i].key;
      hide Close;
      ClosesWhatIsNotShallower(closed, indent);
    }
  }

  /** So a field goes into the record above it that is indented less, however little, and the records stay nested. */
  lemma FeedDeepens(stack: seq<Frame>, raw: string)
    requires IsStack(stack) && Deepens(stack)
    ensures Deepens(Feed(stack, raw))
  {
    hide ParseLine, Read, IsBlank, Assign, PopTo;
    if ParseLine(raw).Some? {
      ClosesWhatIsNotShallower(stack, ParseLine(raw).value.indent);
    }
  }

  lemma {:induction false} FeedAllDeepens(lines: seq<string>)
    ensures Deepens(FeedAll(EMPTY_STACK, lines))
  {
    hide Feed;
    if lines != [] {
      FeedAllDeepens(lines[..|lines| - 1]);
      FeedDeepens(FeedAll(EMPTY_STACK, lines[..|lines| - 1]), lines[|lines| - 1]);
    }
  }

  /** A key that is there already keeps its place and gets the value; the key of the prototype is no field. */
  lemma {:induction false} AssignsInPlace(fields: seq<Field>, key: string, value: Value, i: nat)
    requires key != PROTOTYPE_KEY
    ensures Assign(fields, PROTOTYPE_KEY, value) == fields
    ensures !HasKey(fields, key) ==> Assign(fields, key, value) == fields + [Field(key, value)]
    ensures i < |fields| && fields[i].key == key && !HasKey(fields[i + 1..], key) ==>
      Assign(fields, key, value) == fields[i := Field(key, value)]
  {
    if !HasKey(fields, key) {
      SetNew(fields, key, value);
    }
    if i < |fields| && fields[i].key == key && !HasKey(fields[i + 1..], key) {
      SetAt(fields, key, value, i);
    }
  }

  lemma {:induction false} SetAt(fields: seq<Field>, key: string, value: Value, i: nat)
    requires i < |fields| && fields[i].key == key && !HasKey(fields[i + 1..], key)
    ensures Set(fields, key, value) == fields[i := Field(key, value)]
  {
    if i == |fields| - 1 {
    } else {
      var front, last := fields[..|fields| - 1], fields[|fields| - 1];
      assert fields[i + 1..][|fields| - i - 2] == last;
      var rest, restOfAll := front[i + 1..], fields[i + 1..];
      assert forall k :: 0 <= k < |rest| ==> rest[k] == restOfAll[k];
      SetAt(front, key, value, i);
    }
  }

  // The round trip ---------------------------------------------------------------------------------------------------

  ghost predicate FitsALine(line: string) { line != [] && '\n' !in line && line[|line| - 1] != '\r' }

  lemma {:induction false} EmittedLines(fields: seq<Field>, indent: nat)
    requires Good(fields)
    ensures forall line :: line in Emit(fields, indent) ==> FitsALine(line)
    ensures fields != [] ==> Emit(fields, indent) != []
    decreases fields
  {
    hide FitsALine, GoodKey, Print;
    if fields != [] {
      var last := fields[|fields| - 1];
      EmittedLines(fields[..|fields| - 1], indent);
      match last.value
      case Scalar(leaf) => EmittedScalar(last.key, indent, leaf);
      case Record(inner) =>
        EmittedKey(last.key, indent);
        EmittedLines(inner, indent + 2);
    }
  }

  lemma EmittedKey(key: string, indent: nat)
    requires GoodKey(key)
    ensures FitsALine(Spaces(indent) + key + ":")
  {
  }

  lemma EmittedScalar(key: string, indent: nat, leaf: Leaf)
    requires GoodKey(key) && ValidLeaf(leaf)
    ensures FitsALine(Spaces(indent) + key + ": " + Print(leaf))
  {
    hide Print, IsTrimmed;
    PrintFitsALine(leaf);
    assert Print(leaf)[|Print(leaf)| - 1] in Print(leaf);
  }

  lemma LinesOfJoin(lines: seq<string>)
    requires lines != [] && forall line :: line in lines ==> FitsALine(line)
    ensures Lines(Join(lines, '\n')) == lines
  {
    SplitJoin(lines, '\n');
    assert forall i :: 0 <= i < |lines| ==> lines[i] in lines;
  }

  /** Blank lines and comments may stand anywhere. */
  lemma CommentsAreIgnored(stack: seq<Frame>, before: seq<string>, comment: string, after: seq<string>)
    requires IsStack(stack) && (IsBlank(comment) || (TrimStart(comment) != [] && TrimStart(comment)[0] == '#'))
    ensures FeedAll(stack, before + [comment] + after) == FeedAll(stack, before + after)
  {
    FeedConcat(stack, before + [comment], after);
    FeedConcat(stack, before, [comment]);
    FeedConcat(stack, before, after);
    FeedOne(FeedAll(stack, before), comment);
  }

  /** The lines, each but the last ended by a carriage return that the line feed follows. */
  function WithCarriageReturns(lines: seq<string>): seq<string> {
    seq(|lines|, i requires 0 <= i < |lines| => if i < |lines| - 1 then lines[i] + "\r" else lines[i])
  }

  lemma NoLineFeed(line: string)
    requires FitsALine(line)
    ensures '\n' !in line && '\n' !in line + "\r"
  {
  }

  /** A carriage return in front of a line feed goes with it. The last line of a block has none that would. */
  lemma CarriageReturnsAreIgnored(lines: seq<string>)
    requires lines != [] && forall line :: line in lines ==> FitsALine(line)
    ensures Lines(Join(WithCarriageReturns(lines), '\n')) == Lines(Join(lines, '\n'))
  {
    hide Split, Join, FitsALine;
    var parts := WithCarriageReturns(lines);
    forall i | 0 <= i < |parts|
      ensures '\n' !in parts[i]
    {
      assert FitsALine(lines[i]);
      NoLineFeed(lines[i]);
    }
    SplitJoin(parts, '\n');
    LinesOfJoin(lines);
    var read := Lines(Join(parts, '\n'));
    forall i | 0 <= i < |lines|
      ensures read[i] == lines[i]
    {
      assert lines[i] in lines && FitsALine(lines[i]);
      assert (lines[i] + "\r")[..|lines[i]|] == lines[i];
    }
  }

  lemma ReadsWhatWasEmitted(fields: seq<Field>)
    requires Good(fields)
    ensures Whole(FeedAll(EMPTY_STACK, Emit(fields, 0))) == Recovered(fields)
  {
    hide FeedAll, Good, Recovered;
    assert NewKeys(PopTo(EMPTY_STACK, 0), fields);
    FeedEmit(EMPTY_STACK, fields, 0);
    assert [] + Recovered(fields) == Recovered(fields);
  }

  /** Parsing what was printed gives the fields as they are read back. */
  lemma ParsesWhatWasPrinted(fields: seq<Field>)
    requires Good(fields) && fields != []
    ensures FieldsIn(Join(Emit(fields, 0), '\n')) == Recovered(fields)
  {
    hide Lines, FitsALine, FeedAll, Good, Recovered, Whole;
    EmittedLines(fields, 0);
    LinesOfJoin(Emit(fields, 0));
    ReadsWhatWasEmitted(fields);
  }

  predicate AllSurvive(fields: seq<Field>)
    decreases fields
  {
    fields != [] ==>
      var last := fields[|fields| - 1];
      && AllSurvive(fields[..|fields| - 1])
      && match last.value
         case Scalar(leaf) => Survives(leaf)
         case Record(inner) => AllSurvive(inner)
  }

  lemma {:induction false} RecoveredLength(fields: seq<Field>)
    ensures |Recovered(fields)| <= |fields|
  {
    if fields != [] {
      RecoveredLength(fields[..|fields| - 1]);
    }
  }

  /** The parser gives back what the printer was given exactly if every scalar in it survives. */
  lemma {:induction false} RecoveredIff(fields: seq<Field>)
    requires Good(fields)
    ensures Recovered(fields) == fields <==> AllSurvive(fields)
    decreases fields
  {
    hide Print, Read, HasSeparator, ValidLeaf, Survives;
    if fields != [] {
      var front, last := fields[..|fields| - 1], fields[|fields| - 1];
      RecoveredIff(front);
      RecoveredLength(front);
      assert fields == front + [last];
      match last.value
      case Scalar(leaf) => ReadPrint(leaf);
      case Record(inner) => RecoveredIff(inner);
      var tail := Recovered(fields)[|Recovered(front)|..];
      assert Recovered(fields) == Recovered(front) + tail;
      if Recovered(fields) == fields {
        assert |tail| == 1 && |Recovered(front)| == |front|;
        assert Recovered(front) == fields[..|front|];
        assert tail[0] == last;
      }
    }
  }
}
