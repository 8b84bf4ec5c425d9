/** A workflow file: a block of fields between two rules, and a body. */
module WorkflowFile {

  import opened Options
  import opened ScalarText
  import opened Strings
  import opened Frontmatter
  import opened Clamping

  const MAX_NAME_LENGTH := 80
  const MAX_DESCRIPTION_LENGTH := 1_536
  const MAX_BODY_LENGTH := 100_000

  datatype Trigger = Trigger(schedule: string, isEnabled: bool)

  /** Where a workflow comes from: left as it is, none, or given. */
  datatype SourceRef = Unspecified | NoSource | Source(text: string)

  datatype Spec = Spec(name: string, description: string, body: string, trigger: Option<Trigger>, sourceRef: SourceRef)

  datatype Workflow = Workflow(
    name: string, description: string, body: string, trigger: Option<Trigger>, sourceRef: Option<string>,
      data: seq<Field>)

  // Reading a file ---------------------------------------------------------------------------------------------------

  function TextOf(value: Option<Value>): string {
    if value.Some? && value.value.Scalar? && value.value.leaf.Text? then value.value.leaf.text else ""
  }

  function IsText(value: Option<Value>): bool { value.Some? && value.value.Scalar? && value.value.leaf.Text? }

  function FieldsOf(value: Option<Value>): seq<Field> {
    if value.Some? && value.value.Record? then value.value.fields else []
  }

  /** Where a line that begins with a rule is broken off; the length of the text if there is none. */
  function IndexOfRule(s: string): (n: nat)
    ensures n <= |s| && (n < |s| ==> n + 4 <= |s|)
  {
    if |s| < 4 then |s|
    else if s[..4] == "\n---" then 0
    else 1 + IndexOfRule(s[1..])
  }

  function StripLineBreak(s: string): string {
    if s != [] && s[0] == '\n' then s[1..]
    else if |s| >= 2 && s[0] == '\r' && s[1] == '\n' then s[2..]
    else s
  }

  /** The block between the rules, if there are two, and what follows. */
  function SplitMatter(raw: string): (Option<string>, string) {
    if |raw| < 3 || raw[..3] != "---" then (None, raw)
    else
      var lineEnd := IndexOf(raw, '\n');
      var close := lineEnd + IndexOfRule(raw[lineEnd..]);
      if close == |raw| then (None, raw)
      else (Some(if close > lineEnd then raw[lineEnd + 1..close] else ""), StripLineBreak(raw[close + 4..]))
  }

  function TriggerOf(data: seq<Field>): Option<Trigger> {
    var trigger := FieldsOf(Lookup(data, "trigger"));
    var schedule := NormalizeSchedule(TextOf(Lookup(trigger, "schedule")));
    if schedule == "" then None
    else Some(Trigger(schedule, Lookup(trigger, "enabled") != Some(Scalar(Flag(false)))))
  }

  function SourceRefOf(data: seq<Field>): Option<string> {
    var inMetadata := Lookup(FieldsOf(Lookup(data, "metadata")), "source");
    var raw := TextOf(if IsText(inMetadata) then inMetadata else Lookup(data, "source"));
    if Trim(raw) == "" then None else Some(Trim(raw))
  }

  function WorkflowOf(data: seq<Field>, content: string): Option<Workflow> {
    var body := ClampBlock(content, MAX_BODY_LENGTH);
    if body == "" && data == [] then None
    else
      Some(Workflow(ClampLine(TextOf(Lookup(data, "name")), MAX_NAME_LENGTH),
                    ClampLine(TextOf(Lookup(data, "description")), MAX_DESCRIPTION_LENGTH),
                    body, TriggerOf(data), SourceRefOf(data), data))
  }

  function FieldsOfFile(raw: string): seq<Field> {
    var block := SplitMatter(raw).0;
    if block.Some? then FieldsIn(block.value) else []
  }

  function WorkflowIn(raw: string): Option<Workflow> { WorkflowOf(FieldsOfFile(raw), SplitMatter(raw).1) }

  method ParseWorkflowFile(raw: string) returns (r: Option<Workflow>)
    ensures r == WorkflowIn(raw)
  {
    hide FieldsIn, WorkflowOf;
    var (block, content) := SplitMatter(raw);
    var data := [];
    if block.Some? {
      data := ParseFrontmatter(block.value);
    }
    return WorkflowOf(data, content);
  }

  // Writing a file ---------------------------------------------------------------------------------------------------

  function Delete(fields: seq<Field>, key: string): seq<Field> {
    if fields == [] then []
    else
      var last := fields[|fields| - 1];
      Delete(fields[..|fields| - 1], key) + if last.key == key then [] else [last]
  }

  function PutText(fields: seq<Field>, key: string, text: string): seq<Field> {
    if text == "" then Delete(fields, key) else Set(fields, key, Scalar(Text(text)))
  }

  function PutRecord(fields: seq<Field>, key: string, inner: seq<Field>): seq<Field> {
    if inner == [] then Delete(fields, key) else Set(fields, key, Record(inner))
  }

  /** The source that is written, "" for none: the given one, or the one there was. */
  function SourceToWrite(spec: Spec, existing: seq<Field>): string {
    match spec.sourceRef
    case NoSource => ""
    case Source(text) => text
    case Unspecified =>
      var inMetadata := Lookup(FieldsOf(Lookup(existing, "metadata")), "source");
      if inMetadata == None || inMetadata == Some(Scalar(Null)) then TextOf(Lookup(existing, "source"))
        else TextOf(inMetadata)
  }

  function TriggerFields(trigger: Option<Trigger>): seq<Field> {
    if trigger.None? then []
    else [Field("schedule", Scalar(Text(trigger.value.schedule))),
      Field("enabled", Scalar(Flag(trigger.value.isEnabled)))]
  }

  function DataOf(spec: Spec, existing: seq<Field>): seq<Field> {
    var described := PutText(Set(existing, "name", Scalar(Text(spec.name))), "description", spec.description);
    var metadata := PutText(FieldsOf(Lookup(existing, "metadata")), "source", SourceToWrite(spec, existing));
    PutRecord(PutRecord(Delete(described, "source"), "metadata", metadata), "trigger", TriggerFields(spec.trigger))
  }

  function FileOf(data: seq<Field>, body: string): string {
    "---\n" + Join(Emit(data, 0), '\n') + "\n---\n" + Trim(body) + "\n"
  }

  method SerializeWorkflowFile(spec: Spec, existingData: seq<Field>) returns (raw: string)
    ensures raw == FileOf(DataOf(spec, existingData), spec.body)
  {
    hide Set, Delete, Lookup, Emit;
    var data := Set(existingData, "name", Scalar(Text(spec.name)));
    if |spec.description| > 0 {
      data := Set(data, "description", Scalar(Text(spec.description)));
    } else {
      data := Delete(data, "description");
    }
    LookupPutText(Set(existingData, "name", Scalar(Text(spec.name))), "description", spec.description, "source");
    LookupPutText(Set(existingData, "name", Scalar(Text(spec.name))), "description", spec.description, "metadata");
    LookupSet(existingData, "name", Scalar(Text(spec.name)), "source");
    LookupSet(existingData, "name", Scalar(Text(spec.name)), "metadata");
    var legacySource := Lookup(data, "source");
    LookupDelete(data, "source", "metadata");
    data := Delete(data, "source");
    var metadata := FieldsOf(Lookup(data, "metadata"));
    var inMetadata := Lookup(metadata, "source");
    var nextSource := match spec.sourceRef
      case Unspecified => if inMetadata == None || inMetadata == Some(Scalar(Null)) then legacySource else inMetadata
      case NoSource => None
      case Source(text) => Some(Scalar(Text(text)));
    if IsText(nextSource) && |nextSource.value.leaf.text| > 0 {
      metadata := Set(metadata, "source", nextSource.value);
    } else {
      metadata := Delete(metadata, "source");
    }
    if |metadata| > 0 {
      data := Set(data, "metadata", Record(metadata));
    } else {
      data := Delete(data, "metadata");
    }
    if spec.trigger.Some? {
      data := Set(data, "trigger", Record(TriggerFields(spec.trigger)));
    } else {
      data := Delete(data, "trigger");
    }
    var lines := EmitYaml(data, 0);
    return "---\n" + Join(lines, '\n') + "\n---\n" + Trim(spec.body) + "\n";
  }

  // Looking fields up ------------------------------------------------------------------------------------------------

  lemma {:induction false} LookupIffHasKey(fields: seq<Field>, key: string)
    ensures Lookup(fields, key).Some? <==> HasKey(fields, key)
  {
    if fields != [] {
      var front, last := fields[..|fields| - 1], fields[|fields| - 1];
      LookupIffHasKey(front, key);
      assert forall i :: 0 <= i < |front| ==> front[i] == fields[i];
    }
  }

  lemma LookupSnoc(fields: seq<Field>, last: Field, key: string)
    ensures Lookup(fields + [last], key) == if last.key == key then Some(last.value) else Lookup(fields, key)
  {
    assert (fields + [last])[..|fields|] == fields;
  }

  lemma {:induction false} LookupSet(fields: seq<Field>, key: string, value: Value, other: string)
    ensures Lookup(Set(fields, key, value), other) == if other == key then Some(value) else Lookup(fields, other)
  {
    if fields != [] {
      var front, last := fields[..|fields| - 1], fields[|fields| - 1];
      LookupSet(front, key, value, other);
      LookupSnoc(front, Field(key, value), other);
      LookupSnoc(Set(front, key, value), last, other);
      LookupSnoc(fields, Field(key, value), other);
    }
  }

  lemma {:induction false} LookupDelete(fields: seq<Field>, key: string, other: string)
    ensures Lookup(Delete(fields, key), other) == if other == key then None else Lookup(fields, other)
  {
    if fields != [] {
      LookupDelete(fields[..|fields| - 1], key, other);
      LookupSnoc(Delete(fields[..|fields| - 1], key), fields[|fields| - 1], other);
      assert fields[|fields| - 1].key == key ==> Delete(fields, key) == Delete(fields[..|fields| - 1], key);
    }
  }

  lemma LookupPutText(fields: seq<Field>, key: string, text: string, other: string)
    ensures Lookup(PutText(fields, key, text), other) ==
      if other != key then Lookup(fields, other) else if text == "" then None else Some(Scalar(Text(text)))
  {
    hide Set, Delete, Lookup;
    LookupSet(fields, key, Scalar(Text(text)), other);
    LookupDelete(fields, key, other);
  }

  lemma LookupPutRecord(fields: seq<Field>, key: string, inner: seq<Field>, other: string)
    ensures Lookup(PutRecord(fields, key, inner), other) ==
      if other != key then Lookup(fields, other) else if inner == [] then None else Some(Record(inner))
  {
    hide Set, Delete, Lookup;
    LookupSet(fields, key, Record(inner), other);
    LookupDelete(fields, key, other);
  }

  function RecoveredValue(value: Option<Value>): Option<Value> {
    match value
    case None => None
    case Some(Scalar(leaf)) => if HasSeparator(Print(leaf)) then None else Some(Scalar(Read(Print(leaf))))
    case Some(Record(inner)) => Some(Record(Recovered(inner)))
  }

  lemma {:induction false} LookupRecovered(fields: seq<Field>, key: string)
    requires Good(fields)
    ensures Lookup(Recovered(fields), key) == RecoveredValue(Lookup(fields, key))
  {
    hide HasSeparator, Print, Read, ValidLeaf, GoodKey;
    if fields != [] {
      var front, last := fields[..|fields| - 1], fields[|fields| - 1];
      LookupRecovered(front, key);
      LookupIffHasKey(front, key);
      var shown := Recovered(fields)[|Recovered(front)|..];
      assert Recovered(fields) == Recovered(front) + shown;
      if shown != [] {
        assert Recovered(fields)[..|Recovered(fields)| - 1] == Recovered(front);
      } else {
        assert Recovered(fields) == Recovered(front);
      }
    }
  }

  // Good fields stay good --------------------------------------------------------------------------------------------

  ghost predicate GoodValue(value: Value) {
    match value
    case Scalar(leaf) => ValidLeaf(leaf)
    case Record(inner) => Good(inner)
  }

  lemma {:induction false} KeysOfSet(fields: seq<Field>, key: string, value: Value, other: string)
    ensures HasKey(Set(fields, key, value), other) <==> other == key || HasKey(fields, other)
  {
    hide Set;
    LookupSet(fields, key, value, other);
    LookupIffHasKey(Set(fields, key, value), other);
    LookupIffHasKey(fields, other);
  }

  lemma KeysOfDelete(fields: seq<Field>, key: string, other: string)
    ensures HasKey(Delete(fields, key), other) <==> other != key && HasKey(fields, other)
  {
    hide Delete;
    LookupDelete(fields, key, other);
    LookupIffHasKey(Delete(fields, key), other);
    LookupIffHasKey(fields, other);
  }

  lemma LastIsGood(fields: seq<Field>)
    requires Good(fields) && fields != []
    ensures GoodValue(fields[|fields| - 1].value)
  {
  }

  lemma GoodSnoc(fields: seq<Field>, last: Field)
    requires Good(fields) && GoodKey(last.key) && !HasKey(fields, last.key) && GoodValue(last.value)
    ensures Good(fields + [last])
  {
    assert (fields + [last])[..|fields|] == fields;
  }

  lemma {:induction false} GoodSet(fields: seq<Field>, key: string, value: Value)
    requires Good(fields) && GoodKey(key) && GoodValue(value)
    ensures Good(Set(fields, key, value))
  {
    assert fields == [] ==> !HasKey(fields, key);
    hide GoodKey, HasKey, GoodValue;
    if !HasKey(fields, key) {
      SetNew(fields, key, value);
      GoodSnoc(fields, Field(key, value));
    } else {
      var front, last := fields[..|fields| - 1], fields[|fields| - 1];
      if last.key == key {
        GoodSnoc(front, Field(key, value));
      } else {
        GoodSet(front, key, value);
        KeysOfSet(front, key, value, last.key);
        LastIsGood(fields);
        GoodSnoc(Set(front, key, value), last);
      }
    }
  }

  lemma {:induction false} GoodDelete(fields: seq<Field>, key: string)
    requires Good(fields)
    ensures Good(Delete(fields, key))
  {
    hide GoodKey, HasKey, GoodValue;
    if fields != [] {
      var front, last := fields[..|fields| - 1], fields[|fields| - 1];
      GoodDelete(front, key);
      KeysOfDelete(front, key, last.key);
      LastIsGood(fields);
      if last.key == key {
        assert Delete(fields, key) == Delete(front, key);
      } else {
        GoodSnoc(Delete(front, key), last);
      }
    }
  }

  lemma {:induction false} GoodLookup(fields: seq<Field>, key: string)
    requires Good(fields)
    ensures Lookup(fields, key).Some? ==> GoodValue(Lookup(fields, key).value)
  {
    if fields != [] {
      GoodLookup(fields[..|fields| - 1], key);
    }
  }

  // The two rules ----------------------------------------------------------------------------------------------------

  predicate StartsWithRule(s: string) { |s| >= 3 && s[..3] == "---" }

  /** No field of the outermost record has a key that would be taken for a rule. */
  ghost predicate NoRules(fields: seq<Field>) { forall i :: 0 <= i < |fields| ==> !StartsWithRule(fields[i].key) }

  ghost predicate PlainLine(line: string) { line != [] && '\n' !in line && !StartsWithRule(line) }

  lemma {:induction false} EmittedWithoutRules(fields: seq<Field>, indent: nat)
    requires Good(fields) && (indent == 0 ==> NoRules(fields))
    ensures forall line :: line in Emit(fields, indent) ==> PlainLine(line)
    decreases fields
  {
    hide PlainLine, GoodKey, Print, HasKey, FitsALine, StartsWithRule, Spaces;
    EmittedLines(fields, indent);
    if fields != [] {
      var front, last := fields[..|fields| - 1], fields[|fields| - 1];
      EmittedWithoutRules(front, indent);
      match last.value
      case Scalar(leaf) =>
        EmittedScalar(last.key, indent, leaf);
        StartsPlain(last.key, indent, " " + Print(leaf));
        assert Spaces(indent) + last.key + ":" + (" " + Print(leaf)) == Spaces(indent) + last.key + ": " + Print(leaf);
        IsPlain(Spaces(indent) + last.key + ": " + Print(leaf));
      case Record(inner) =>
        EmittedKey(last.key, indent);
        StartsPlain(last.key, indent, "");
        assert Spaces(indent) + last.key + ":" + "" == Spaces(indent) + last.key + ":";
        IsPlain(Spaces(indent) + last.key + ":");
        EmittedWithoutRules(inner, indent + 2);
    }
  }

  lemma IsPlain(line: string)
    requires FitsALine(line) && !StartsWithRule(line)
    ensures PlainLine(line)
  {
  }

  lemma StartsPlain(key: string, indent: nat, rest: string)
    requires GoodKey(key) && (indent == 0 ==> !StartsWithRule(key))
    ensures !StartsWithRule(Spaces(indent) + key + ":" + rest)
  {
    var line := Spaces(indent) + key + ":" + rest;
    if indent > 0 {
      assert line[0] == ' ';
    } else if |key| < 3 {
      assert line[|key|] == ':';
    } else {
      assert line[..3] == key[..3];
    }
  }

  lemma {:induction false} RuleBeyond(line: string, rest: string)
    requires '\n' !in line
    ensures IndexOfRule(line + rest) == |line| + IndexOfRule(rest)
  {
    if line == [] {
      assert line + rest == rest;
    } else {
      RuleBeyond(line[1..], rest);
      assert (line + rest)[1..] == line[1..] + rest;
      assert (line + rest)[0] == line[0] && line[0] in line;
    }
  }

  lemma RuleBeyondLine(line: string, rest: string)
    requires PlainLine(line) && rest != [] && rest[0] == '\n'
    ensures IndexOfRule("\n" + line + rest) == 1 + |line| + IndexOfRule(rest)
  {
    assert '\n' !in line;
    hide PlainLine, IndexOfRule;
    NoRuleHere(line, rest);
    RuleBeyond(line, rest);
    AfterBreak(line + rest);
    assert "\n" + line + rest == "\n" + (line + rest);
  }

  lemma AfterBreak(s: string)
    ensures IndexOfRule("\n" + s) == if StartsWithRule(s) then 0 else 1 + IndexOfRule(s)
  {
    var text := "\n" + s;
    assert text[1..] == s;
    if |s| >= 3 {
      var head := s[..3];
      assert text[..4] == "\n" + head;
      assert head == ("\n" + head)[1..];
      assert "\n---"[1..] == "---";
    }
  }

  lemma NoRuleHere(line: string, rest: string)
    requires PlainLine(line) && rest != [] && rest[0] == '\n'
    ensures !StartsWithRule(line + rest)
  {
    if |line| < 3 {
      assert (line + rest)[|line|] == '\n';
    } else {
      assert (line + rest)[..3] == line[..3];
    }
  }

  lemma {:induction false} RuleAfterLines(lines: seq<string>, rest: string)
    requires lines != [] && forall line :: line in lines ==> PlainLine(line)
    ensures IndexOfRule("\n" + Join(lines, '\n') + "\n---" + rest) == 1 + |Join(lines, '\n')|
  {
    hide PlainLine;
    var text := "\n" + Join(lines, '\n') + "\n---" + rest;
    if |lines| == 1 {
      var after := "\n---" + rest;
      RuleBeyondLine(lines[0], after);
      assert after[..4] == "\n---";
      assert text == "\n" + lines[0] + after;
    } else {
      RuleAfterLines(lines[1..], rest);
      var after := "\n" + Join(lines[1..], '\n') + "\n---" + rest;
      RuleBeyondLine(lines[0], after);
      assert text == "\n" + lines[0] + after;
    }
  }

  lemma SplitsWhatWasWritten(data: seq<Field>, body: string)
    requires Good(data) && NoRules(data) && data != []
    ensures SplitMatter(FileOf(data, body)) == (Some(Join(Emit(data, 0), '\n')), Trim(body) + "\n")
  {
    hide PlainLine, Good, Emit, Trim, FitsALine, NoRules, IndexOfRule, Join, SplitMatter, StripLineBreak, FileOf;
    EmittedLines(data, 0);
    EmittedWithoutRules(data, 0);
    FileIs(data, body);
    var block, end := Join(Emit(data, 0), '\n'), "\n" + Trim(body) + "\n";
    RuleAfterLines(Emit(data, 0), end);
    BetweenRules(block, Trim(body));
    SplitAtRule("---", "\n" + block + "\n---" + end);
    BreakStripped(Trim(body) + "\n");
  }

  lemma BetweenRules(block: string, body: string)
    ensures
      var text := "\n" + block + "\n---" + ("\n" + body + "\n");
      && text == "\n" + block + ("\n---\n" + body + "\n")
      && text[1..1 + |block|] == block && text[1 + |block| + 4..] == "\n" + (body + "\n")
  {
  }

  lemma BreakStripped(s: string)
    ensures StripLineBreak("\n" + s) == s
  {
  }

  lemma RuleChars(s: string, n: nat)
    requires n < 3
    ensures StartsWithRule(s) ==> |s| > n && s[n] == '-'
  {
    if StartsWithRule(s) {
      assert s[n] == s[..3][n];
    }
  }

  lemma SplitsAt(raw: string, lineEnd: nat, n: nat)
    requires StartsWithRule(raw) && lineEnd == IndexOf(raw, '\n') && n == IndexOfRule(raw[lineEnd..])
    ensures SplitMatter(raw) ==
      if lineEnd + n == |raw| then (None, raw)
      else (Some(if n > 0 then raw[lineEnd + 1..lineEnd + n] else ""), StripLineBreak(raw[lineEnd + n + 4..]))
  {
  }

  lemma SplitAtRule(head: string, text: string)
    requires '\n' !in head && StartsWithRule(head) && text != [] && text[0] == '\n'
    ensures
      var n := IndexOfRule(text);
      SplitMatter(head + text) ==
      if n == |text| then (None, head + text)
        else (Some(if n > 0 then text[1..n] else ""), StripLineBreak(text[n + 4..]))
  {
    hide IndexOfRule, IndexOf, StripLineBreak, SplitMatter, StartsWithRule;
    var raw := head + text;
    RuleStays(head, text);
    FirstBreak(head, text);
    var n := IndexOfRule(text);
    SplitsAt(raw, |head|, n);
    SameParts(head, text, n);
  }

  /** The parts of a text are those of a longer one, further on. */
  lemma SameParts(head: string, text: string, n: nat)
    requires n <= |text| && (n < |text| ==> n + 4 <= |text|)
    ensures n < |text| ==> (head + text)[|head| + n + 4..] == text[n + 4..]
    ensures 0 < n < |text| ==> (head + text)[|head| + 1..|head| + n] == text[1..n]
  {
  }

  lemma RuleStays(head: string, text: string)
    requires StartsWithRule(head)
    ensures StartsWithRule(head + text)
  {
    assert (head + text)[..3] == head[..3];
  }

  lemma FirstBreak(head: string, text: string)
    requires '\n' !in head && text != [] && text[0] == '\n'
    ensures IndexOf(head + text, '\n') == |head| && (head + text)[|head|..] == text
  {
    hide IndexOf;
    FirstAt(head, '\n', text[1..]);
    assert head + text == head + ['\n'] + text[1..];
  }

  lemma Within(head: string, text: string, i: nat, j: nat)
    requires i <= j <= |text|
    ensures (head + text)[|head| + i..|head| + j] == text[i..j]
  {
  }

  lemma {:induction false} RuleIsThere(s: string, n: nat)
    requires n == IndexOfRule(s) < |s|
    ensures n + 4 <= |s| && s[n..n + 4] == "\n---"
  {
    if n > 0 {
      RuleIsThere(s[1..], n - 1);
      assert s[1..][n - 1..n + 3] == s[n..n + 4];
    }
  }

  // A key that would be taken for a rule -----------------------------------------------------------------------------

  lemma {:induction false} RuleNoLater(s: string, k: nat)
    requires k + 4 <= |s| && s[k..k + 4] == "\n---"
    ensures IndexOfRule(s) <= k
  {
    if k > 0 {
      assert s[1..][k - 1..k + 3] == s[k..k + 4];
      RuleNoLater(s[1..], k - 1);
    }
  }

  lemma {:induction false} LineInJoin(lines: seq<string>, i: nat) returns (k: nat)
    requires i < |lines|
    ensures k + |lines[i]| <= |Join(lines, '\n')| && Join(lines, '\n')[k..k + |lines[i]|] == lines[i]
    ensures k > 0 ==> Join(lines, '\n')[k - 1] == '\n'
  {
    if i == 0 {
      k := 0;
    } else {
      k := LineInJoin(lines[1..], i - 1);
      BehindFirst(lines[0], Join(lines[1..], '\n'), k, lines[i]);
      k := k + |lines[0]| + 1;
    }
  }

  lemma BehindFirst(first: string, rest: string, k: nat, line: string)
    requires k + |line| <= |rest| && rest[k..k + |line|] == line && (k > 0 ==> rest[k - 1] == '\n')
    ensures
      var (all, n) := (first + ['\n'] + rest, k + |first| + 1);
      n + |line| <= |all| && all[n..n + |line|] == line && all[n - 1] == '\n'
  {
    Within(first + ['\n'], rest, k, k + |line|);
  }

  lemma {:induction false} LineOfKey(data: seq<Field>, i: nat) returns (j: nat, rest: string)
    requires i < |data|
    ensures j < |Emit(data, 0)| && Emit(data, 0)[j] == data[i].key + ":" + rest
  {
    hide Print;
    var front, last := data[..|data| - 1], data[|data| - 1];
    assert Spaces(0) == "";
    if i == |data| - 1 {
      j := |Emit(front, 0)|;
      match last.value
      case Scalar(leaf) => rest := " " + Print(leaf);
      case Record(_) => rest := "";
    } else {
      j, rest := LineOfKey(front, i);
    }
  }

  lemma {:induction false} TrimEndCovers(s: string, j: nat)
    requires j < |s| && !IsSpace(s[j])
    ensures |TrimEnd(s)| > j
  {
    hide IsSpace;
    if IsSpace(s[|s| - 1]) {
      TrimEndCovers(s[..|s| - 1], j);
    }
  }

  lemma TrimCovers(s: string, i: nat, j: nat)
    requires i <= j < |s| && !IsSpace(s[i]) && !IsSpace(s[j])
    ensures |Trim(s)| > j - i
  {
    hide IsSpace;
    var n := TrimStartDrops(s);
    TrimEndCovers(s[n..], j - n);
  }

  /** What has a colon well before a text is longer than the text, also when it has been trimmed. */
  lemma LongContent(before: string, between: string, text: string)
    requires IsTrimmed(text) && between != []
    ensures |Trim(StripLineBreak(before + ":" + between + text + "\n"))| > |text|
  {
    var s := before + ":" + between + text + "\n";
    var r := StripLineBreak(s);
    var cut := |s| - |r|;
    assert IsSpace('\n') && IsSpace('\r') && !IsSpace(':');
    assert s[|before|] == ':';
    hide IsSpace;
    assert cut <= |before| && r == s[cut..];
    var i, j := |before| - cut, |before| + |between| + |text| - cut;
    assert r[i] == ':';
    if text == [] {
      TrimCovers(r, i, i);
    } else {
      assert r[j] == text[|text| - 1];
      TrimCovers(r, i, j);
    }
  }

  lemma SplitsInside(before: string, between: string, text: string, k: nat)
    requires IsTrimmed(text) && between != [] && before != [] && before[0] == '\n'
    requires k + 4 <= |before| && before[k..k + 4] == "\n---"
    ensures |Trim(SplitMatter("---" + (before + ":" + between + text + "\n")).1)| > |text|
  {
    var all := before + ":" + between + text + "\n";
    hide IndexOfRule, StripLineBreak, SplitMatter, Trim, IsTrimmed;
    assert all[k..k + 4] == before[k..k + 4];
    RuleNoLater(all, k);
    SplitAtRule("---", all);
    var n := IndexOfRule(all);
    assert all[n + 4..] == before[n + 4..] + ":" + between + text + "\n";
    LongContent(before[n + 4..], between, text);
  }

  /** The file is then split at that key, and what is taken for the body is longer than the body. */
  lemma SplitsAtAKey(data: seq<Field>, body: string)
    requires !NoRules(data)
    ensures |Trim(SplitMatter(FileOf(data, body)).1)| > |Trim(body)|
  {
    var i :| 0 <= i < |data| && StartsWithRule(data[i].key);
    var j, rest := LineOfKey(data, i);
    var key, block := data[i].key, Join(Emit(data, 0), '\n');
    var k := LineInJoin(Emit(data, 0), j);
    hide FileOf, SplitMatter, Emit, Join, Trim, NoRules, IndexOfRule, StartsWithRule;
    ColonAfterKey(block, k, key, rest);
    var before, between := "\n" + block[..k + |key|], block[k + |key| + 1..] + "\n---\n";
    TrimIsTrimmed(body);
    SplitsInside(before, between, Trim(body), k);
    FileOfParts(data, body, before, between);
  }

  lemma ColonAfterKey(block: string, k: nat, key: string, rest: string)
    requires StartsWithRule(key) && k + |key + ":" + rest| <= |block|
    requires block[k..k + |key + ":" + rest|] == key + ":" + rest && (k > 0 ==> block[k - 1] == '\n')
    ensures k + |key| < |block| && |key| >= 3
    ensures "\n" + block + "\n---\n" == ("\n" + block[..k + |key|]) + ":" + (block[k + |key| + 1..] + "\n---\n")
    ensures ("\n" + block[..k + |key|])[k..k + 4] == "\n---"
  {
    var line, before := key + ":" + rest, "\n" + block[..k + |key|];
    assert block[k + |key|] == line[|key|] == ':';
    assert block == block[..k + |key|] + ":" + block[k + |key| + 1..];
    RuleChars(key, 0);
    RuleChars(key, 1);
    RuleChars(key, 2);
    assert block[k] == line[0] && block[k + 1] == line[1] && block[k + 2] == line[2];
    assert before[k + 1] == block[k] && before[k + 2] == block[k + 1] && before[k + 3] == block[k + 2];
    assert before[k] == '\n';
  }

  lemma FileOfParts(data: seq<Field>, body: string, before: string, between: string)
    requires "\n" + Join(Emit(data, 0), '\n') + "\n---\n" == before + ":" + between
    ensures FileOf(data, body) == "---" + (before + ":" + between + Trim(body) + "\n")
  {
    hide Join, Emit, Trim;
    var block := Join(Emit(data, 0), '\n');
    assert FileOf(data, body) == "---" + (("\n" + block + "\n---\n") + Trim(body) + "\n");
  }

  // Normal forms -----------------------------------------------------------------------------------------------------

  /** What clamping leaves alone. */
  predicate IsNormal(spec: Spec) {
    && ClampLine(spec.name, MAX_NAME_LENGTH) == spec.name
    && ClampLine(spec.description, MAX_DESCRIPTION_LENGTH) == spec.description
    && ClampBlock(spec.body, MAX_BODY_LENGTH) == spec.body
    && (spec.trigger.Some? ==>
          NormalizeSchedule(spec.trigger.value.schedule) == spec.trigger.value.schedule &&
            spec.trigger.value.schedule != "")
  }

  /** A clamped body is trimmed, and the line break after it is trimmed off again. */
  lemma BodyComesBack(body: string)
    requires ClampBlock(body, MAX_BODY_LENGTH) == body
    ensures ClampBlock(Trim(body) + "\n", MAX_BODY_LENGTH) == body
  {
    hide Trim, IsTrimmed;
    TrimShortens(body);
    assert Trim(body) == body;
    TrimIsTrimmed(body);
    assert IsSpace('\n');
    SpaceBehind(body, '\n');
    hide IsSpace;
  }

  // The round trip ---------------------------------------------------------------------------------------------------

  lemma OwnKeysAreGood()
    ensures GoodKey("name") && GoodKey("description") && GoodKey("source") && GoodKey("metadata") && GoodKey("trigger")
    ensures GoodKey("schedule") && GoodKey("enabled")
    ensures !StartsWithRule("name") && !StartsWithRule("description") && !StartsWithRule("source")
    ensures !StartsWithRule("metadata") && !StartsWithRule("trigger")
  {
    hide GoodKey, StartsWithRule;
    WordIsGoodKey("name");
    WordIsGoodKey("description");
    WordIsGoodKey("source");
    WordIsGoodKey("metadata");
    WordIsGoodKey("trigger");
    WordIsGoodKey("schedule");
    WordIsGoodKey("enabled");
  }

  lemma WordIsGoodKey(key: string)
    requires key != [] && forall c :: c in key ==> 'a' <= c <= 'z'
    ensures GoodKey(key) && !StartsWithRule(key)
  {
    assert |key| >= 3 ==> key[..3][0] == key[0];
    assert key[0] in key && key[|key| - 1] in key && PROTOTYPE_KEY[0] == '_';
  }

  lemma GoodPutText(fields: seq<Field>, key: string, text: string)
    requires Good(fields) && GoodKey(key)
    ensures Good(PutText(fields, key, text))
  {
    hide Good, GoodKey;
    GoodDelete(fields, key);
    GoodSet(fields, key, Scalar(Text(text)));
  }

  lemma GoodPutRecord(fields: seq<Field>, key: string, inner: seq<Field>)
    requires Good(fields) && GoodKey(key) && Good(inner)
    ensures Good(PutRecord(fields, key, inner))
  {
    hide Good, GoodKey;
    GoodDelete(fields, key);
    GoodSet(fields, key, Record(inner));
  }

  lemma NoRulesByKey(fields: seq<Field>)
    ensures NoRules(fields) <==> forall key :: HasKey(fields, key) ==> !StartsWithRule(key)
  {
    hide StartsWithRule;
    forall i | 0 <= i < |fields|
      ensures HasKey(fields, fields[i].key)
    {
    }
  }

  lemma TriggerFieldsAreGood(trigger: Option<Trigger>)
    ensures Good(TriggerFields(trigger))
    ensures trigger.Some? ==>
      && Lookup(TriggerFields(trigger), "schedule") == Some(Scalar(Text(trigger.value.schedule)))
      && Lookup(TriggerFields(trigger), "enabled") == Some(Scalar(Flag(trigger.value.isEnabled)))
  {
    if trigger.Some? {
      OwnKeysAreGood();
      hide GoodKey;
      var schedule, enabled := Field("schedule", Scalar(Text(trigger.value.schedule))),
        Field("enabled", Scalar(Flag(trigger.value.isEnabled)));
      assert [] + [schedule] == [schedule] && [schedule] + [enabled] == TriggerFields(trigger);
      GoodSnoc([], schedule);
      GoodSnoc([schedule], enabled);
      LookupSnoc([schedule], enabled, "schedule");
      LookupSnoc([schedule], enabled, "enabled");
      LookupSnoc([], schedule, "schedule");
    }
  }

  function MetadataOf(spec: Spec, existing: seq<Field>): seq<Field> {
    PutText(FieldsOf(Lookup(existing, "metadata")), "source", SourceToWrite(spec, existing))
  }

  lemma MetadataOfIs(spec: Spec, existing: seq<Field>)
    ensures MetadataOf(spec, existing) ==
      PutText(FieldsOf(Lookup(existing, "metadata")), "source", SourceToWrite(spec, existing))
  {
  }

  lemma MetadataIsGood(spec: Spec, existing: seq<Field>)
    requires Good(existing)
    ensures Good(MetadataOf(spec, existing))
    ensures Lookup(MetadataOf(spec, existing), "source") ==
      var source := SourceToWrite(spec, existing); if source == "" then None else Some(Scalar(Text(source)))
  {
    hide PutText, GoodKey, SourceToWrite;
    OwnKeysAreGood();
    GoodLookup(existing, "metadata");
    GoodPutText(FieldsOf(Lookup(existing, "metadata")), "source", SourceToWrite(spec, existing));
    LookupPutText(FieldsOf(Lookup(existing, "metadata")), "source", SourceToWrite(spec, existing), "source");
  }

  /** What the written fields hold under the keys that are read. */
  lemma WrittenFields(spec: Spec, existing: seq<Field>)
    requires Good(existing)
    ensures
      var data := DataOf(spec, existing);
      && Good(data) && (NoRules(data) <==> NoRules(existing))
      && Lookup(data, "name") == Some(Scalar(Text(spec.name)))
      && Lookup(data, "description") == (if spec.description == "" then None else Some(Scalar(Text(spec.description))))
      && Lookup(data, "source") == None
      && Lookup(data, "metadata") ==
        (if MetadataOf(spec, existing) == [] then None else Some(Record(MetadataOf(spec, existing))))
      && Lookup(data, "trigger") == (if spec.trigger.None? then None else Some(Record(TriggerFields(spec.trigger))))
  {
    hide PutText, PutRecord, GoodKey, Good, NoRules, Lookup, Set, Delete, MetadataOf, SourceToWrite, FieldsOf,
      StartsWithRule;
    OwnKeysAreGood();
    TriggerFieldsAreGood(spec.trigger);
    MetadataIsGood(spec, existing);
    MetadataOfIs(spec, existing);
    var metadata, trigger := MetadataOf(spec, existing), TriggerFields(spec.trigger);
    var d0 := Set(existing, "name", Scalar(Text(spec.name)));
    var d1 := PutText(d0, "description", spec.description);
    var d2 := Delete(d1, "source");
    var d3 := PutRecord(d2, "metadata", metadata);
    GoodSet(existing, "name", Scalar(Text(spec.name)));
    GoodPutText(d0, "description", spec.description);
    GoodDelete(d1, "source");
    GoodPutRecord(d2, "metadata", metadata);
    GoodPutRecord(d3, "trigger", trigger);
    WrittenRules(spec, existing);
    forall key | key in ["name", "description", "source", "metadata", "trigger"]
      ensures Lookup(PutRecord(d3, "trigger", trigger), key) ==
        if key == "trigger" then if trigger == [] then None else Some(Record(trigger))
        else if key == "metadata" then if metadata == [] then None else Some(Record(metadata))
        else if key == "source" then None
        else if key == "description" then if spec.description == "" then None else Some(Scalar(Text(spec.description)))
        else Some(Scalar(Text(spec.name)))
    {
      LookupPutRecord(d3, "trigger", trigger, key);
      LookupPutRecord(d2, "metadata", metadata, key);
      LookupDelete(d1, "source", key);
      LookupPutText(d0, "description", spec.description, key);
      LookupSet(existing, "name", Scalar(Text(spec.name)), key);
    }
  }

  /** Every other field of the existing ones is written, and no rule is added to them. */
  lemma WrittenRules(spec: Spec, existing: seq<Field>)
    ensures NoRules(DataOf(spec, existing)) <==> NoRules(existing)
  {
    hide PutText, PutRecord, NoRules, Lookup, Set, Delete, MetadataOf, SourceToWrite, FieldsOf, HasKey, StartsWithRule,
      GoodKey;
    OwnKeysAreGood();
    MetadataOfIs(spec, existing);
    var d0 := Set(existing, "name", Scalar(Text(spec.name)));
    var d1 := PutText(d0, "description", spec.description);
    var d2 := Delete(d1, "source");
    var d3 := PutRecord(d2, "metadata", MetadataOf(spec, existing));
    var data := PutRecord(d3, "trigger", TriggerFields(spec.trigger));
    forall key | StartsWithRule(key)
      ensures HasKey(data, key) <==> HasKey(existing, key)
    {
      LookupPutRecord(d3, "trigger", TriggerFields(spec.trigger), key);
      LookupPutRecord(d2, "metadata", MetadataOf(spec, existing), key);
      LookupDelete(d1, "source", key);
      LookupPutText(d0, "description", spec.description, key);
      LookupSet(existing, "name", Scalar(Text(spec.name)), key);
      LookupIffHasKey(data, key);
      LookupIffHasKey(existing, key);
    }
    NoRulesByKey(data);
    NoRulesByKey(existing);
  }

  lemma NothingInNothing(key: string)
    ensures Lookup([], key) == None && Recovered([]) == []
    ensures Trim("") == "" && NormalizeSchedule("") == "" && !HasSeparator("")
  {
  }

  lemma RecoveredText(text: string)
    ensures RecoveredValue(Some(Scalar(Text(text)))) == if HasSeparator(text) then None else Some(Scalar(Text(text)))
  {
    hide Read, Print, HasSeparator;
    ReadPrint(Text(text));
  }

  lemma FileIsReadBack(data: seq<Field>, body: string)
    requires Good(data) && NoRules(data) && data != []
    ensures WorkflowIn(FileOf(data, body)) == WorkflowOf(Recovered(data), Trim(body) + "\n")
  {
    hide FieldsIn, WorkflowOf, SplitMatter, FileOf, Recovered, Good, NoRules;
    SplitsWhatWasWritten(data, body);
    ParsesWhatWasPrinted(data);
  }

  lemma TriggerComesBack(data: seq<Field>, trigger: Option<Trigger>)
    requires Good(data) && Lookup(data, "trigger") == if trigger.None? then None
      else Some(Record(TriggerFields(trigger)))
    requires trigger.Some? ==>
      NormalizeSchedule(trigger.value.schedule) == trigger.value.schedule && trigger.value.schedule != ""
    ensures TriggerOf(Recovered(data)) == trigger
  {
    hide Good, Lookup, Recovered, Read, Print, TriggerFields, NormalizeSchedule, Trim, HasSeparator;
    LookupRecovered(data, "trigger");
    if trigger.None? {
      NothingInNothing("schedule");
    } else {
      var schedule := trigger.value.schedule;
      TriggerFieldsAreGood(trigger);
      LookupRecovered(TriggerFields(trigger), "schedule");
      LookupRecovered(TriggerFields(trigger), "enabled");
      SpacesOnly(schedule);
      RecoveredText(schedule);
      ReadPrint(Flag(trigger.value.isEnabled));
    }
  }

  lemma SourceComesBack(data: seq<Field>, metadata: seq<Field>, source: string)
    requires Good(data) && Good(metadata) && Lookup(data, "source") == None
    requires Lookup(data, "metadata") == if metadata == [] then None else Some(Record(metadata))
    requires Lookup(metadata, "source") == if source == "" then None else Some(Scalar(Text(source)))
    ensures SourceRefOf(Recovered(data)) == if Trim(source) == "" || HasSeparator(source) then None
      else Some(Trim(source))
  {
    hide Good, Lookup, Recovered, Read, Print, Trim, HasSeparator;
    LookupRecovered(data, "metadata");
    LookupRecovered(data, "source");
    LookupRecovered(metadata, "source");
    RecoveredText(source);
    NothingInNothing("source");
  }

  /** A workflow that is written over existing fields is what the file is read as. */
  ghost predicate ComesBack(spec: Spec, existing: seq<Field>) {
    var source := SourceToWrite(spec, existing);
    var read := WorkflowIn(FileOf(DataOf(spec, existing), spec.body));
    && read.Some? && read.value.name == spec.name && read.value.description == spec.description
    && read.value.body == spec.body && read.value.trigger == spec.trigger
    && read.value.sourceRef == if Trim(source) == "" then None else Some(Trim(source))
  }

  /** Neither the name nor the description nor the source that is written has a line or paragraph separator in it. */
  predicate WithoutSeparators(spec: Spec, existing: seq<Field>) {
    var source := SourceToWrite(spec, existing);
    !HasSeparator(spec.name) && !HasSeparator(spec.description) && (Trim(source) != "" ==> !HasSeparator(source))
  }

  lemma ComesBackIffPlain(spec: Spec, existing: seq<Field>)
    requires IsNormal(spec) && Good(existing) && NoRules(existing)
    ensures ComesBack(spec, existing) <==> WithoutSeparators(spec, existing)
  {
    hide Good, NoRules, Lookup, Recovered, Trim, HasSeparator, ClampLine, ClampBlock, DataOf, FileOf, WorkflowIn,
      SourceToWrite,
      MetadataOf, TriggerOf, SourceRefOf, NormalizeSchedule, TriggerFields;
    var data, source := DataOf(spec, existing), SourceToWrite(spec, existing);
    WrittenFields(spec, existing);
    MetadataIsGood(spec, existing);
    NothingInNothing("name");
    FileIsReadBack(data, spec.body);
    BodyComesBack(spec.body);
    TriggerComesBack(data, spec.trigger);
    SourceComesBack(data, MetadataOf(spec, existing), source);
    LookupRecovered(data, "name");
    LookupRecovered(data, "description");
    RecoveredText(spec.name);
    RecoveredText(spec.description);
    ClampNothing(MAX_NAME_LENGTH);
    ClampNothing(MAX_DESCRIPTION_LENGTH);
  }

  /** A workflow in normal form comes back exactly if no existing field has a key that begins like a rule, and no text
      has a separator in it. (A file that is split at a key may give back only a body of the full length, which is cut:
      one that repeats what stands before it.) */
  lemma WorkflowRoundTrip(spec: Spec, existing: seq<Field>)
    requires IsNormal(spec) && Good(existing)
    ensures NoRules(existing) && WithoutSeparators(spec, existing) ==> ComesBack(spec, existing)
    ensures ComesBack(spec, existing) && |spec.body| < MAX_BODY_LENGTH ==>
      NoRules(existing) && WithoutSeparators(spec, existing)
    ensures ComesBack(spec, existing) && NoRules(existing) ==> WithoutSeparators(spec, existing)
  {
    hide Good, NoRules, ComesBack, WithoutSeparators, IsNormal;
    if NoRules(existing) {
      ComesBackIffPlain(spec, existing);
    } else if |spec.body| < MAX_BODY_LENGTH {
      LosesTheBody(spec, existing);
    }
  }

  lemma ClampNothing(max: nat)
    ensures ClampLine("", max) == ""
  {
  }

  lemma LosesTheBody(spec: Spec, existing: seq<Field>)
    requires IsNormal(spec) && Good(existing) && !NoRules(existing) && |spec.body| < MAX_BODY_LENGTH
    ensures !ComesBack(spec, existing)
  {
    hide Good, NoRules, DataOf, FileOf, SplitMatter, Trim, ClampLine, TriggerOf, SourceRefOf, FieldsOfFile,
      NormalizeSchedule;
    WrittenRules(spec, existing);
    SplitsAtAKey(DataOf(spec, existing), spec.body);
  }

  /** So every body comes back exactly if that holds. */
  lemma EveryBodyComesBackIff(spec: Spec, existing: seq<Field>)
    requires IsNormal(spec) && Good(existing)
    ensures
      (forall body :: ClampBlock(body, MAX_BODY_LENGTH) == body ==> ComesBack(spec.(body := body), existing)) <==>
      NoRules(existing) && WithoutSeparators(spec, existing)
  {
    hide Good, NoRules, ComesBack, ClampBlock, WithoutSeparators, IsNormal;
    forall body | ClampBlock(body, MAX_BODY_LENGTH) == body
      ensures NoRules(existing) && WithoutSeparators(spec, existing) ==> ComesBack(spec.(body := body), existing)
    {
      WithBody(spec, existing, body);
      WorkflowRoundTrip(spec.(body := body), existing);
    }
    NoBody();
    WithBody(spec, existing, "");
    WorkflowRoundTrip(spec.(body := ""), existing);
  }

  lemma WithBody(spec: Spec, existing: seq<Field>, body: string)
    requires IsNormal(spec) && ClampBlock(body, MAX_BODY_LENGTH) == body
    ensures IsNormal(spec.(body := body)) &&
      WithoutSeparators(spec.(body := body), existing) == WithoutSeparators(spec, existing)
  {
    hide ClampLine, ClampBlock, NormalizeSchedule, HasSeparator, Trim, Lookup;
  }

  lemma NoBody()
    ensures ClampBlock("", MAX_BODY_LENGTH) == ""
  {
  }

  // What the parser returns ------------------------------------------------------------------------------------------

  lemma ReadIsValid(raw: string)
    ensures ValidLeaf(Read(raw))
  {
    hide Trim, UnescapeAll, Unsingle, IsDecimal;
    if IsDecimal(Trim(raw)) {
      DecimalChars(Trim(raw));
      assert forall c :: IsDecimalChar(c) ==> !IsSpace(c);
    }
  }

  lemma ParsedKeyIsGood(raw: string)
    requires '\n' !in raw && ParseLine(raw).Some?
    ensures var key := ParseLine(raw).value.key; key == PROTOTYPE_KEY || GoodKey(key)
  {
    var colon := IndexOf(raw, ':');
    var before := raw[..colon];
    TrimIsTrimmed(before);
    KeyStartsTheLine(raw, colon);
    hide Trim, TrimStart, IsSpace;
    TrimKeeps(before);
  }

  lemma TrimKeeps(s: string)
    ensures forall c :: c in Trim(s) ==> c in s
    ensures Trim(s) != [] ==> Trim(s)[0] == TrimStart(s)[0]
  {
    hide IsSpace;
    var r := TrimStart(s);
    var n := TrimStartDrops(s);
    assert TrimEnd(r) <= r;
    hide TrimStart, TrimEnd;
    forall c | c in TrimEnd(r)
      ensures c in s
    {
      assert c in r;
    }
  }

  lemma {:induction false} KeyStartsTheLine(raw: string, colon: nat)
    requires colon <= |raw| && !IsBlank(raw[..colon])
    ensures TrimStart(raw) != [] && TrimStart(raw[..colon]) != [] && TrimStart(raw)[0] == TrimStart(raw[..colon])[0]
  {
    assert raw != [];
    hide IsSpace;
    if IsSpace(raw[0]) {
      assert raw[1..][..colon - 1] == raw[..colon][1..];
      assert forall i :: 1 <= i < colon ==> raw[..colon][i] == raw[1..][..colon - 1][i - 1];
      KeyStartsTheLine(raw[1..], colon - 1);
    }
  }

  ghost predicate GoodFrames(stack: seq<Frame>) {
    forall i :: 0 <= i < |stack| ==>
      Good(stack[i].fields) && (i > 0 ==> stack[i].key == PROTOTYPE_KEY || GoodKey(stack[i].key))
  }

  lemma GoodAssign(fields: seq<Field>, key: string, value: Value)
    requires Good(fields) && GoodValue(value) && (key == PROTOTYPE_KEY || GoodKey(key))
    ensures Good(Assign(fields, key, value))
  {
    hide Good, GoodKey, GoodValue;
    if key != PROTOTYPE_KEY {
      GoodSet(fields, key, value);
    }
  }

  lemma {:induction false} GoodPopTo(stack: seq<Frame>, indent: nat)
    requires IsStack(stack) && GoodFrames(stack)
    ensures GoodFrames(PopTo(stack, indent))
    decreases |stack|
  {
    hide GoodKey, Good, Assign;
    StackBase(stack);
    if stack[|stack| - 1].indent >= indent {
      var top, below := stack[|stack| - 1], stack[|stack| - 2];
      GoodAssign(below.fields, top.key, Record(top.fields));
      GoodPopTo(Close(stack), indent);
    }
  }

  lemma GoodFeed(stack: seq<Frame>, raw: string)
    requires IsStack(stack) && GoodFrames(stack) && '\n' !in raw
    ensures GoodFrames(Feed(stack, raw))
  {
    NoFieldsAreGood();
    hide ParseLine, Read, IsBlank, Assign, PopTo, GoodKey, Good;
    if ParseLine(raw).Some? {
      var Line(indent, key, tail) := ParseLine(raw).value;
      ParsedKeyIsGood(raw);
      ReadIsValid(tail);
      GoodPopTo(stack, indent);
      var parent := PopTo(stack, indent);
      GoodAssign(parent[|parent| - 1].fields, key, if IsBlank(tail) then Record([]) else Scalar(Read(tail)));
    }
  }

  lemma NoFieldsAreGood()
    ensures Good([])
  {
  }

  lemma {:induction false} GoodFeedAll(lines: seq<string>)
    requires forall i :: 0 <= i < |lines| ==> '\n' !in lines[i]
    ensures GoodFrames(FeedAll(EMPTY_STACK, lines))
  {
    hide Feed, GoodFrames;
    if lines == [] {
      EmptyIsGood();
    } else {
      GoodFeedAll(lines[..|lines| - 1]);
      GoodFeed(FeedAll(EMPTY_STACK, lines[..|lines| - 1]), lines[|lines| - 1]);
    }
  }

  lemma EmptyIsGood()
    ensures GoodFrames(EMPTY_STACK)
  {
  }

  lemma {:induction false} SplitHasNone(s: string, sep: char)
    ensures forall i :: 0 <= i < |Split(s, sep)| ==> sep !in Split(s, sep)[i]
  {
    if s != [] {
      SplitHasNone(s[1..], sep);
    }
  }

  /** Whatever a text holds, the fields it is parsed to are such that the printer may be given them again. */
  lemma ParsedIsGood(text: string)
    ensures Good(FieldsIn(text))
  {
    hide Good, FeedAll, PopTo, Split;
    SplitHasNone(text, '\n');
    GoodFeedAll(Lines(text));
    GoodPopTo(FeedAll(EMPTY_STACK, Lines(text)), 0);
  }

  /** So every workflow can be read, changed and saved over its own fields, and what is saved comes back on that
      condition. */
  lemma SavedAgainComesBackIff(raw: string, spec: Spec)
    requires WorkflowIn(raw).Some? && IsNormal(spec)
    ensures
      var data := WorkflowIn(raw).value.data;
      (forall body :: ClampBlock(body, MAX_BODY_LENGTH) == body ==> ComesBack(spec.(body := body), data)) <==>
      NoRules(data) && WithoutSeparators(spec, data)
  {
    hide Good, NoRules, ComesBack, WithoutSeparators, IsNormal, ClampBlock, FieldsIn;
    NoFieldsAreGood();
    if SplitMatter(raw).0.Some? {
      ParsedIsGood(SplitMatter(raw).0.value);
    }
    EveryBodyComesBackIff(spec, WorkflowIn(raw).value.data);
  }

  // What is normal ---------------------------------------------------------------------------------------------------

  /** Normal are the texts that are trimmed and not too long, and a schedule with one space between its fields. */
  lemma IsNormalIff(spec: Spec)
    ensures IsNormal(spec) <==>
      && |spec.name| <= 80 && IsTrimmed(spec.name) && IsOneLine(spec.name)
      && |spec.description| <= 1536 && IsTrimmed(spec.description) && IsOneLine(spec.description)
      && |spec.body| <= 100_000 && IsTrimmed(spec.body)
      && (spec.trigger.Some? ==> var schedule := spec.trigger.value.schedule;
          schedule != "" && IsTrimmed(schedule) && IsSqueezed(schedule, IsSpace, false))
  {
    hide ClampLine, ClampBlock, NormalizeSchedule, IsTrimmed, IsOneLine, IsSqueezed;
    LineIsClampedIff(spec.name, MAX_NAME_LENGTH);
    LineIsClampedIff(spec.description, MAX_DESCRIPTION_LENGTH);
    BlockIsClampedIff(spec.body, MAX_BODY_LENGTH);
    if spec.trigger.Some? {
      ScheduleIsNormalIff(spec.trigger.value.schedule);
    }
  }

  function ReadSpec(w: Workflow): Spec { Spec(w.name, w.description, w.body, w.trigger, Unspecified) }

  /** What is read is normal exactly if none of its texts was cut behind white space. */
  lemma ReadIsNormalIff(raw: string)
    requires WorkflowIn(raw).Some?
    ensures var w := WorkflowIn(raw).value;
      IsNormal(ReadSpec(w)) <==> EndsInText(w.name) && EndsInText(w.description) && EndsInText(w.body)
  {
    var data, content := FieldsOfFile(raw), SplitMatter(raw).1;
    TriggerIsNormal(data);
    hide FieldsOfFile, SplitMatter, TriggerOf, SourceRefOf, Lookup, ClampLine, ClampBlock, NormalizeSchedule,
      EndsInText;
    ClampedTwiceIff(TextOf(Lookup(data, "name")), MAX_NAME_LENGTH);
    ClampedTwiceIff(TextOf(Lookup(data, "description")), MAX_DESCRIPTION_LENGTH);
    ClampedTwiceIff(content, MAX_BODY_LENGTH);
  }

  lemma TriggerIsNormal(data: seq<Field>)
    ensures TriggerOf(data).Some? ==> var schedule := TriggerOf(data).value.schedule;
      schedule != "" && NormalizeSchedule(schedule) == schedule
  {
    hide Lookup, NormalizeSchedule;
    NormalizedTwice(TextOf(Lookup(FieldsOf(Lookup(data, "trigger")), "schedule")));
  }

  /** A file that does not begin with a rule is all body. */
  lemma PlainTextIsBody(raw: string)
    requires !("---" <= raw)
    ensures WorkflowIn(raw) ==
      if ClampBlock(raw, MAX_BODY_LENGTH) == "" then None
      else Some(Workflow("", "", ClampBlock(raw, MAX_BODY_LENGTH), None, None, []))
  {
    hide ClampBlock, ClampLine, Lookup;
    NoBlock(raw);
    NothingInNothing("name");
    NothingInNothing("description");
    NothingOfNothing();
    ClampNothing(MAX_NAME_LENGTH);
    ClampNothing(MAX_DESCRIPTION_LENGTH);
  }

  lemma NoBlock(raw: string)
    requires !("---" <= raw)
    ensures SplitMatter(raw) == (None, raw)
  {
  }

  lemma NothingOfNothing()
    ensures TriggerOf([]) == None && SourceRefOf([]) == None
  {
    hide Trim, Lookup;
    NothingInNothing("trigger");
    NothingInNothing("metadata");
    NothingInNothing("schedule");
    NothingInNothing("source");
  }

  /** A source under the metadata that is neither text nor null, over a text at the root. */
  predicate HidesSource(data: seq<Field>) {
    var inMetadata := Lookup(FieldsOf(Lookup(data, "metadata")), "source");
    && inMetadata.Some? && inMetadata != Some(Scalar(Null)) && !IsText(inMetadata)
    && Trim(TextOf(Lookup(data, "source"))) != ""
  }

  /** A source that is left as it is stays what it is read as, exactly if it is not hidden so. */
  lemma SourceIsKeptIff(spec: Spec, existing: seq<Field>)
    requires spec.sourceRef.Unspecified?
    ensures
      var source := Trim(SourceToWrite(spec, existing));
      SourceRefOf(existing) == (if source == "" then None else Some(source)) <==> !HidesSource(existing)
  {
    NothingInNothing("");
    hide Trim, Lookup;
  }

  /** Such a source is read, and gone once the workflow is saved. */
  lemma HiddenSourceIsLost(spec: Spec)
    requires spec.sourceRef.Unspecified?
    ensures
      var data := [Field("metadata", Record([Field("source", Scalar(Flag(true)))])),
        Field("source", Scalar(Text("s")))];
      SourceRefOf(data) == Some("s") && SourceToWrite(spec, data) == ""
  {
    TrimmedStays("s");
    hide Trim;
    var inMetadata := [Field("source", Scalar(Flag(true)))];
    var data := [Field("metadata", Record(inMetadata)), Field("source", Scalar(Text("s")))];
    assert data[..1] == [data[0]];
    assert Lookup(data, "metadata") == Some(Record(inMetadata)) &&
      Lookup(inMetadata, "source") == Some(Scalar(Flag(true)));
  }

  /** The source is the text under the metadata, or the text at the root of an older file. */
  lemma SourceIsRead(data: seq<Field>, text: string)
    requires
      || Lookup(FieldsOf(Lookup(data, "metadata")), "source") == Some(Scalar(Text(text)))
      || (Lookup(data, "metadata") == None && Lookup(data, "source") == Some(Scalar(Text(text))))
    ensures SourceRefOf(data) == if Trim(text) == "" then None else Some(Trim(text))
  {
    NothingInNothing("source");
    hide Trim, Lookup;
  }

  // A key that is read and cannot be written -------------------------------------------------------------------------

  lemma {:induction false} FirstStays(fields: seq<Field>, key: string, value: Value)
    requires fields != [] && fields[0].key != key
    ensures Set(fields, key, value) != [] && Set(fields, key, value)[0] == fields[0]
    ensures Delete(fields, key) != [] && Delete(fields, key)[0] == fields[0]
  {
    if |fields| > 1 {
      FirstStays(fields[..|fields| - 1], key, value);
    } else {
      assert Delete([], key) == [];
    }
  }

  /** Nothing is read of a file whose first key begins like a rule. */
  lemma NothingBehindARule(data: seq<Field>, body: string)
    requires data != [] && StartsWithRule(data[0].key)
    ensures FieldsOfFile(FileOf(data, body)) == []
  {
    hide FileOf, SplitMatter, Emit, Join, Trim, IndexOfRule, FieldsIn, StartsWithRule;
    var rest := FirstLine(data);
    var block, end := Join(Emit(data, 0), '\n'), "\n---\n" + Trim(body) + "\n";
    RuleFirst(data[0].key, rest, block, end);
    FileIs(data, body);
    SplitsFirst("\n" + block + end);
    NothingParsed();
  }

  lemma FileIs(data: seq<Field>, body: string)
    ensures FileOf(data, body) == "---" + ("\n" + Join(Emit(data, 0), '\n') + ("\n---\n" + Trim(body) + "\n"))
  {
    hide Join, Emit, Trim;
  }

  lemma SplitsFirst(text: string)
    requires text != [] && text[0] == '\n' && IndexOfRule(text) == 0
    ensures SplitMatter("---" + text).0 == Some("")
  {
    hide IndexOfRule, SplitMatter, StripLineBreak;
    SplitAtRule("---", text);
  }

  lemma RuleFirst(key: string, rest: string, block: string, end: string)
    requires StartsWithRule(key) && key + ":" + rest <= block
    ensures IndexOfRule("\n" + block + end) == 0 && StartsWithRule("---")
  {
    RuleStays(key, ":" + rest);
    assert key + (":" + rest) == key + ":" + rest;
    RuleStays(key + ":" + rest, block[|key + ":" + rest|..]);
    RuleStays(block, end);
    hide IndexOfRule;
    AfterBreak(block + end);
    assert "\n" + block + end == "\n" + (block + end);
    assert block == (key + ":" + rest) + block[|key + ":" + rest|..];
  }

  lemma FirstLine(data: seq<Field>) returns (rest: string)
    requires data != []
    ensures data[0].key + ":" + rest <= Join(Emit(data, 0), '\n')
  {
    rest := FirstEmitted(data);
  }

  lemma {:induction false} FirstEmitted(data: seq<Field>) returns (rest: string)
    requires data != []
    ensures Emit(data, 0) != [] && Emit(data, 0)[0] == data[0].key + ":" + rest
  {
    hide Print;
    if |data| > 1 {
      rest := FirstEmitted(data[..|data| - 1]);
    } else {
      assert Spaces(0) == "" && Emit(data[..0], 0) == [];
      match data[0].value
      case Scalar(leaf) => rest := " " + Print(leaf);
      case Record(_) => rest := "";
    }
  }

  lemma FirstIsWritten(spec: Spec, existing: seq<Field>)
    requires existing != [] && existing[0].key !in {"name", "description", "source", "metadata", "trigger"}
    ensures DataOf(spec, existing) != [] && DataOf(spec, existing)[0] == existing[0]
  {
    hide Set, Delete, MetadataOf;
    MetadataOfIs(spec, existing);
    var d0 := Set(existing, "name", Scalar(Text(spec.name)));
    FirstStays(existing, "name", Scalar(Text(spec.name)));
    FirstStays(d0, "description", Scalar(Text(spec.description)));
    var d1 := PutText(d0, "description", spec.description);
    FirstStays(d1, "source", Scalar(Null));
    var d2 := Delete(d1, "source");
    FirstStays(d2, "metadata", Record(MetadataOf(spec, existing)));
    var d3 := PutRecord(d2, "metadata", MetadataOf(spec, existing));
    FirstStays(d3, "trigger", Record(TriggerFields(spec.trigger)));
  }

  /** The parser takes an indented rule for a key of the root, and whatever workflow is saved over that has no field
      left when it is read again. */
  lemma IndentedRuleLosesTheFields(spec: Spec)
    ensures FieldsIn("  ---x:") == [Field("---x", Record([]))]
    ensures FieldsOfFile(FileOf(DataOf(spec, FieldsIn("  ---x:")), spec.body)) == []
  {
    RuleIsAKey();
    hide FieldsIn, DataOf, FieldsOfFile, FileOf;
    assert "---x"[..3] == "---";
    FirstIsWritten(spec, FieldsIn("  ---x:"));
    NothingBehindARule(DataOf(spec, FieldsIn("  ---x:")), spec.body);
  }

  lemma RuleIsAKey()
    ensures FieldsIn("  ---x:") == [Field("---x", Record([]))]
  {
    assert !IsSpace('-') && !IsSpace('x');
    assert GoodKey("---x");
    IndentedKeyIsRead("---x", 2);
    assert Spaces(2) + "---x" + ":" == "  ---x:";
  }

  /** Indentation alone does not take a key out of the root. */
  lemma IndentedKeyIsRead(key: string, indent: nat)
    requires GoodKey(key)
    ensures FieldsIn(Spaces(indent) + key + ":") == [Field(key, Record([]))]
  {
    var line := Spaces(indent) + key + ":";
    EmittedKey(key, indent);
    OneLine(line);
    hide GoodKey, Spaces, Feed, FieldsIn, PopTo;
    RootStays(indent);
    FeedRecord(EMPTY_STACK, EMPTY_STACK, key, indent);
    RootOf(key, indent);
  }

  lemma OneLine(line: string)
    requires '\n' !in line
    ensures FieldsIn(line) == Whole(Feed(EMPTY_STACK, line))
  {
    SplitWhole(line, '\n');
    assert Lines(line) == [line];
    hide Feed, Lines;
    FeedOne(EMPTY_STACK, line);
  }

  lemma RootStays(indent: nat)
    ensures PopTo(EMPTY_STACK, indent) == EMPTY_STACK
  {
  }

  lemma RootOf(key: string, indent: nat)
    requires GoodKey(key)
    ensures
      var nested := Extended(EMPTY_STACK, [Field(key, Record([]))]) + [Frame(indent, key, [])];
      IsStack(nested) && Whole(nested) == [Field(key, Record([]))]
  {
    var root := [Frame(-1, "", [Field(key, Record([]))])];
    var nested := Extended(EMPTY_STACK, [Field(key, Record([]))]) + [Frame(indent, key, [])];
    assert EMPTY_STACK[..0] == [] && [] + [Field(key, Record([]))] == [Field(key, Record([]))];
    assert Extended(EMPTY_STACK, [Field(key, Record([]))]) == root;
    SetLast([], key, Record([]), Record([]));
    assert key != PROTOTYPE_KEY;
    hide GoodKey;
    assert Assign([Field(key, Record([]))], key, Record([])) == [Field(key, Record([]))];
    assert nested[..0] == [];
    assert Close(nested) == root;
    assert PopTo(nested, 0) == PopTo(root, 0) == root;
  }

  lemma NothingParsed()
    ensures FieldsIn("") == []
  {
    assert Lines("") == [""];
    assert ParseLine("") == None;
  }

  // A file as it looks -----------------------------------------------------------------------------------------------

  /** The lines of a workflow that is written for the first time. */
  function FirstLines(spec: Spec): seq<string> {
    ["name: " + Quote(spec.name)] +
    (if spec.description == "" then [] else ["description: " + Quote(spec.description)]) +
    (if !spec.sourceRef.Source? || spec.sourceRef.text == "" then []
     else ["metadata:", "  source: " + Quote(spec.sourceRef.text)]) +
    (if spec.trigger.None? then []
     else
       ["trigger:", "  schedule: " + Quote(spec.trigger.value.schedule),
        if spec.trigger.value.isEnabled then "  enabled: true" else "  enabled: false"])
  }

  function Only(keep: bool, field: Field): seq<Field> { if keep then [field] else [] }

  lemma FirstFile(spec: Spec)
    ensures Emit(DataOf(spec, []), 0) == FirstLines(spec)
  {
    hide Quote, Emit, DataOf, TriggerFields;
    var source := if spec.sourceRef.Source? then spec.sourceRef.text else "";
    var name, description := Field("name", Scalar(Text(spec.name))),
      Field("description", Scalar(Text(spec.description)));
    var metadata := Field("metadata", Record([Field("source", Scalar(Text(source)))]));
    var trigger := Field("trigger", Record(TriggerFields(spec.trigger)));
    var d, m, t := Only(spec.description != "", description), Only(source != "", metadata),
      Only(spec.trigger.Some?, trigger);
    FirstFields(spec, source);
    EmitConcat([name] + d + m, t, 0);
    EmitConcat([name] + d, m, 0);
    EmitConcat([name], d, 0);
    EmitScalar("name", Text(spec.name), "name: ");
    EmitScalar("description", Text(spec.description), "description: ");
    EmitSource(source);
    EmitRecord("metadata", [Field("source", Scalar(Text(source)))], "metadata:");
    EmitRecord("trigger", TriggerFields(spec.trigger), "trigger:");
    if spec.trigger.Some? {
      EmitTrigger(spec.trigger.value);
    }
    NoLines();
  }

  lemma NoLines()
    ensures Emit([], 0) == []
  {
  }

  lemma EmitSource(source: string)
    ensures Emit([Field("source", Scalar(Text(source)))], 2) == ["  source: " + Quote(source)]
  {
    EmitIndented("source", Text(source), "  source: ");
  }

  lemma EmitTrigger(trigger: Trigger)
    ensures Emit(TriggerFields(Some(trigger)), 2) ==
      ["  schedule: " + Quote(trigger.schedule), if trigger.isEnabled then "  enabled: true" else "  enabled: false"]
  {
    hide Quote, Emit;
    var schedule, enabled := Field("schedule", Scalar(Text(trigger.schedule))),
      Field("enabled", Scalar(Flag(trigger.isEnabled)));
    EmitConcat([schedule], [enabled], 2);
    EmitIndented("schedule", Text(trigger.schedule), "  schedule: ");
    EmitIndented("enabled", Flag(trigger.isEnabled), "  enabled: ");
    assert TriggerFields(Some(trigger)) == [schedule] + [enabled];
    FlagLines();
  }

  lemma FlagLines()
    ensures "  enabled: " + "true" == "  enabled: true" && "  enabled: " + "false" == "  enabled: false"
  {
  }

  lemma EmitScalar(key: string, leaf: Leaf, start: string)
    requires start == key + ": "
    ensures Emit([Field(key, Scalar(leaf))], 0) == [start + Print(leaf)]
  {
    assert [Field(key, Scalar(leaf))][..0] == [];
    assert Spaces(0) + key + ": " == start;
  }

  lemma EmitIndented(key: string, leaf: Leaf, start: string)
    requires start == "  " + key + ": "
    ensures Emit([Field(key, Scalar(leaf))], 2) == [start + Print(leaf)]
  {
    assert [Field(key, Scalar(leaf))][..0] == [];
    assert Spaces(2) == "  ";
  }

  lemma EmitRecord(key: string, inner: seq<Field>, line: string)
    requires line == key + ":"
    ensures Emit([Field(key, Record(inner))], 0) == [line] + Emit(inner, 2)
  {
    assert [Field(key, Record(inner))][..0] == [];
    assert Spaces(0) + key + ":" == line;
  }

  lemma {:induction false} EmitConcat(a: seq<Field>, b: seq<Field>, indent: nat)
    ensures Emit(a + b, indent) == Emit(a, indent) + Emit(b, indent)
  {
    hide Print;
    if b == [] {
      assert a + b == a;
    } else {
      assert (a + b)[..|a + b| - 1] == a + b[..|b| - 1];
      EmitConcat(a, b[..|b| - 1], indent);
    }
  }

  lemma FirstFields(spec: Spec, source: string)
    requires source == if spec.sourceRef.Source? then spec.sourceRef.text else ""
    ensures DataOf(spec, []) ==
      [Field("name", Scalar(Text(spec.name)))] +
      Only(spec.description != "", Field("description", Scalar(Text(spec.description)))) +
      Only(source != "", Field("metadata", Record([Field("source", Scalar(Text(source)))]))) +
      Only(spec.trigger.Some?, Field("trigger", Record(TriggerFields(spec.trigger))))
  {
    hide Set, Delete, PutText, PutRecord;
    NothingInNothing("metadata");
    NothingInNothing("source");
    var name := Field("name", Scalar(Text(spec.name)));
    SetNew([], "name", Scalar(Text(spec.name)));
    assert Set([], "name", Scalar(Text(spec.name))) == [name];
    PutTextNew([name], "description", spec.description);
    var d1 := [name] + Only(spec.description != "", Field("description", Scalar(Text(spec.description))));
    DeleteAbsent(d1, "source");
    PutTextNew([], "source", source);
    assert SourceToWrite(spec, []) == source;
    var inner := Only(source != "", Field("source", Scalar(Text(source))));
    assert [] + inner == inner;
    PutRecordNew(d1, "metadata", inner);
    var d3 := d1 + Only(source != "", Field("metadata", Record([Field("source", Scalar(Text(source)))])));
    PutRecordNew(d3, "trigger", TriggerFields(spec.trigger));
  }

  lemma PutTextNew(fields: seq<Field>, key: string, text: string)
    requires !HasKey(fields, key)
    ensures PutText(fields, key, text) == fields + Only(text != "", Field(key, Scalar(Text(text))))
  {
    SetNew(fields, key, Scalar(Text(text)));
    DeleteAbsent(fields, key);
  }

  lemma PutRecordNew(fields: seq<Field>, key: string, inner: seq<Field>)
    requires !HasKey(fields, key)
    ensures PutRecord(fields, key, inner) == fields + Only(inner != [], Field(key, Record(inner)))
  {
    SetNew(fields, key, Record(inner));
    DeleteAbsent(fields, key);
  }

  lemma {:induction false} DeleteAbsent(fields: seq<Field>, key: string)
    requires !HasKey(fields, key)
    ensures Delete(fields, key) == fields
  {
    if fields != [] {
      assert forall i :: 0 <= i < |fields| - 1 ==> fields[..|fields| - 1][i] == fields[i];
      DeleteAbsent(fields[..|fields| - 1], key);
    }
  }
}
