/** A workflow file whose lines end in a carriage return and a line feed. */
module LineEndings {

  import opened Options
  import opened ScalarText
  import opened Strings
  import opened Frontmatter
  import opened WorkflowFile
  import opened Clamping

  /** The text with a carriage return put before every line feed. */
  function CrLf(s: string): string {
    if s == [] then [] else Ended(s[0]) + CrLf(s[1..])
  }

  function Ended(c: char): string { if c == '\n' then "\r\n" else [c] }

  /** No line feed has a carriage return before it yet. */
  predicate LineFeedsOnly(s: string) { forall i :: 0 < i < |s| && s[i] == '\n' ==> s[i - 1] != '\r' }

  lemma CrLfCons(c: char, s: string)
    ensures CrLf([c] + s) == Ended(c) + CrLf(s)
  {
    assert ([c] + s)[1..] == s;
  }

  lemma {:induction false} CrLfConcat(a: string, b: string)
    ensures CrLf(a + b) == CrLf(a) + CrLf(b)
  {
    assert CrLf([]) == [];
    hide CrLf, Ended;
    if a == [] {
      assert a + b == b;
    } else {
      CrLfConcat(a[1..], b);
      CrLfCons(a[0], a[1..]);
      CrLfCons(a[0], a[1..] + b);
      assert a == [a[0]] + a[1..] && a + b == [a[0]] + (a[1..] + b);
    }
  }

  lemma {:induction false} CrLfWithout(s: string)
    requires '\n' !in s
    ensures CrLf(s) == s
  {
    if s != [] {
      CrLfWithout(s[1..]);
      assert s[0] in s && s == [s[0]] + s[1..];
    }
  }

  lemma CrLfStarts(s: string)
    ensures CrLf(s) != [] ==> CrLf(s)[0] != '\n'
    ensures StartsWithRule(CrLf(s)) <==> StartsWithRule(s)
  {
    if |s| >= 3 && s[0] != '\n' && s[1] != '\n' && s[2] != '\n' {
      CrLfConcat(s[..3], s[3..]);
      CrLfWithout(s[..3]);
      assert s == s[..3] + s[3..];
    } else {
      Starts(s);
    }
  }

  lemma Starts(s: string)
    requires |s| < 3 || s[0] == '\n' || s[1] == '\n' || s[2] == '\n'
    ensures !StartsWithRule(CrLf(s)) && !StartsWithRule(s)
  {
    var n := if s == [] || s[0] == '\n' then 0 else if |s| == 1 || s[1] == '\n' then 1 else 2;
    CrLfConcat(s[..n], s[n..]);
    CrLfWithout(s[..n]);
    assert s == s[..n] + s[n..];
    RuleChars(s, n);
    RuleChars(CrLf(s), n);
    if n < |s| {
      assert CrLf(s)[n] == '\r' == CrLf(s[n..])[0];
    }
  }

  // The lines --------------------------------------------------------------------------------------------------------

  function Returned(parts: seq<string>): seq<string> { seq(|parts|, i requires 0 <= i < |parts| => parts[i] + "\r") }

  lemma {:induction false} SplitCrLf(s: string)
    ensures Split(CrLf(s) + "\r", '\n') == Returned(Split(s, '\n'))
  {
    if s == [] {
      assert CrLf(s) + "\r" == "\r";
      SplitWhole("\r", '\n');
      assert Returned([""]) == ["\r"];
    } else {
      SplitCrLf(s[1..]);
      var rest := CrLf(s[1..]) + "\r";
      if s[0] == '\n' {
        assert CrLf(s) == "\r\n" + CrLf(s[1..]) && CrLf(s) + "\r" == "\r" + ['\n'] + rest;
        assert Split(s, '\n') == [""] + Split(s[1..], '\n');
        SplitAtSeparator("\r", rest, '\n');
        SplitWhole("\r", '\n');
        ReturnedCons("", Split(s[1..], '\n'));
        assert "" + "\r" == "\r";
      } else {
        assert CrLf(s) + "\r" == [s[0]] + rest && ([s[0]] + rest)[1..] == rest;
        ReturnedPush(s[0], Split(s[1..], '\n'));
      }
    }
  }

  lemma ReturnedCons(part: string, parts: seq<string>)
    ensures Returned([part] + parts) == [part + "\r"] + Returned(parts)
  {
  }

  lemma ReturnedPush(c: char, parts: seq<string>)
    requires |parts| >= 1 && c != '\n'
    ensures PushFront(c, Returned(parts), '\n') == Returned(PushFront(c, parts, '\n'))
  {
    assert [c] + (parts[0] + "\r") == [c] + parts[0] + "\r";
  }

  predicate NoReturnBeforeBreak(parts: seq<string>) {
    forall i :: 0 <= i < |parts| - 1 && parts[i] != [] ==> parts[i][|parts[i]| - 1] != '\r'
  }

  lemma {:induction false} NoReturns(s: string)
    requires LineFeedsOnly(s)
    ensures NoReturnBeforeBreak(Split(s, '\n'))
    ensures |Split(s, '\n')| > 1 && Split(s, '\n')[0] == [] ==> s[0] == '\n'
  {
    if s != [] {
      NoReturns(s[1..]);
      var rest := Split(s[1..], '\n');
      if s[0] != '\n' && |rest| > 1 && rest[0] == [] {
        assert s[1] == '\n' && s[0] != '\r';
      }
      PushedReturns(s[0], rest);
    }
  }

  lemma PushedReturns(c: char, parts: seq<string>)
    requires |parts| >= 1 && NoReturnBeforeBreak(parts) && (c == '\r' && |parts| > 1 ==> parts[0] != [])
    ensures NoReturnBeforeBreak(PushFront(c, parts, '\n'))
  {
    var pushed := PushFront(c, parts, '\n');
    forall i | 0 <= i < |pushed| - 1 && pushed[i] != []
      ensures pushed[i][|pushed[i]| - 1] != '\r'
    {
      if c != '\n' && i == 0 {
        assert parts[0] != [] ==> ([c] + parts[0])[|parts[0]|] == parts[0][|parts[0]| - 1];
      }
    }
  }

  /** The lines of a block as a file with carriage returns has it: the last line keeps its own. */
  lemma LinesOfCrLf(block: string)
    requires LineFeedsOnly(block)
    ensures
      var lines := Lines(block);
      lines != [] && Lines(CrLf(block) + "\r") == lines[..|lines| - 1] + [lines[|lines| - 1] + "\r"]
  {
    hide Split, CrLf, LineFeedsOnly;
    SplitCrLf(block);
    NoReturns(block);
    var parts := Split(block, '\n');
    PlainParts(parts);
    assert Lines(block) == parts;
  }

  lemma PlainParts(parts: seq<string>)
    requires parts != [] && NoReturnBeforeBreak(parts)
    ensures Stripped(parts) == parts
    ensures Stripped(Returned(parts)) == parts[..|parts| - 1] + [parts[|parts| - 1] + "\r"]
  {
    forall i | 0 <= i < |parts| - 1
      ensures Stripped(Returned(parts))[i] == parts[i]
    {
      assert (parts[i] + "\r")[..|parts[i]|] == parts[i];
    }
  }

  predicate HasValue(line: string) { ParseLine(line).Some? && !IsBlank(ParseLine(line).value.tail) }

  lemma {:induction false} TrimReturn(s: string)
    ensures TrimStart(s + "\r") == if IsBlank(s) then [] else TrimStart(s) + "\r"
    ensures IsBlank(s) <==> TrimStart(s) == []
  {
    assert IsSpace('\r') && TrimStart([]) == [];
    hide IsSpace, TrimStart, IsBlank;
    BlankNothing();
    if s == [] {
      assert s + "\r" == "\r";
      SpaceOnly('\r');
    } else {
      BlankCons(s);
      assert (s + "\r")[1..] == s[1..] + "\r" && (s + "\r")[0] == s[0];
      TrimReturn(s[1..]);
      if IsSpace(s[0]) {
        TrimOne(s);
        TrimOne(s + "\r");
      } else {
        TrimNone(s);
        TrimNone(s + "\r");
      }
    }
  }

  lemma TrimNone(s: string)
    requires s != [] && !IsSpace(s[0])
    ensures TrimStart(s) == s
  {
  }

  lemma BlankNothing()
    ensures IsBlank([])
  {
  }

  lemma SpaceOnly(c: char)
    requires IsSpace(c)
    ensures TrimStart([c]) == []
  {
    assert [c][1..] == [];
  }

  lemma BlankCons(s: string)
    requires s != []
    ensures IsBlank(s) <==> IsSpace(s[0]) && IsBlank(s[1..])
  {
    hide IsSpace;
    if IsSpace(s[0]) && IsBlank(s[1..]) {
      assert forall i :: 1 <= i < |s| ==> s[i] == s[1..][i - 1];
    }
  }

  lemma {:induction false} ColonBeforeReturn(s: string)
    ensures IndexOf(s + "\r", ':') == var n := IndexOf(s, ':'); if n == |s| then n + 1 else n
  {
    if s != [] {
      ColonBeforeReturn(s[1..]);
      assert (s + "\r")[1..] == s[1..] + "\r";
    } else {
      assert s + "\r" == "\r" && "\r"[1..] == [];
    }
  }

  /** A line that keeps its carriage return is no field if it has a value, and else is read as without it. */
  lemma ReturnedLine(line: string)
    ensures ParseLine(line + "\r") == if HasValue(line) then None else ParseLine(line)
  {
    hide IsSpace, IsBlank, Trim, TrimStart, IndexOf, HasLineTerminator, ParseLine;
    TrimReturn(line);
    ColonBeforeReturn(line);
    var colon := IndexOf(line, ':');
    WithoutColon(line);
    WithoutColon(line + "\r");
    if colon < |line| {
      var before, rest := line[..colon], line[colon + 1..];
      Around(before, line[colon], rest);
      Cut(line, colon);
      Around(before, line[colon], rest + "\r");
      BlankBefore(line, colon);
      WithColon(line, colon);
      WithColon(line + "\r", colon);
      ReturnedTail(rest);
    }
  }

  lemma WithoutColon(raw: string)
    ensures IndexOf(raw, ':') == |raw| ==> ParseLine(raw) == None
  {
    hide IsSpace, IsBlank, Trim, TrimStart, IndexOf, HasLineTerminator;
  }

  lemma WithColon(raw: string, colon: nat)
    requires IndexOf(raw, ':') == colon < |raw|
    ensures
      var (text, before, tail) := (TrimStart(raw), raw[..colon], TrimStart(raw[colon + 1..]));
      ParseLine(raw) ==
      if text == [] || text[0] == '#' || IsBlank(before) || HasLineTerminator(tail) then None
      else Some(Line(|raw| - |text|, Trim(before), tail))
  {
    hide IsSpace, IsBlank, Trim, TrimStart, IndexOf, HasLineTerminator, ParseLine;
    var text := TrimStart(raw);
    if text == [] || text[0] == '#' || IsBlank(raw[..colon]) {
      NoLine(raw);
    } else {
      LineIs(raw, text, colon);
    }
  }

  lemma NoLine(raw: string)
    requires TrimStart(raw) == [] || TrimStart(raw)[0] == '#' || IsBlank(raw[..IndexOf(raw, ':')])
    ensures ParseLine(raw) == None
  {
    hide IsSpace, IsBlank, Trim, TrimStart, IndexOf, HasLineTerminator;
  }

  lemma Cut(line: string, i: nat)
    requires i < |line|
    ensures line + "\r" == line[..i] + [line[i]] + (line[i + 1..] + "\r")
  {
  }

  lemma ReturnedTail(rest: string)
    ensures IsBlank(TrimStart(rest)) <==> TrimStart(rest) == []
    ensures TrimStart(rest) == [] ==> TrimStart(rest + "\r") == [] && !HasLineTerminator([])
    ensures TrimStart(rest) != [] ==> HasLineTerminator(TrimStart(rest + "\r"))
  {
    TrimReturn(rest);
    var tail := TrimStart(rest);
    if tail != [] {
      assert !IsSpace(tail[0]);
      assert IsLineTerminator((tail + "\r")[|tail|]);
    }
  }

  lemma BlankBefore(line: string, colon: nat)
    requires colon < |line|
    ensures !IsBlank(line[..colon]) ==> !IsBlank(line)
  {
    hide IsSpace;
    if i :| 0 <= i < colon && !IsSpace(line[..colon][i]) {
      assert !IsSpace(line[i]);
    }
  }

  /** The fields of a block when its last line is not read if it has a value. */
  function FieldsWithoutLastValue(block: string): seq<Field> {
    var lines := Lines(block);
    Whole(FeedAll(EMPTY_STACK, if lines != [] && HasValue(lines[|lines| - 1]) then lines[..|lines| - 1] else lines))
  }

  lemma FieldsOfCrLf(block: string)
    requires LineFeedsOnly(block)
    ensures FieldsIn(CrLf(block) + "\r") == FieldsWithoutLastValue(block)
  {
    hide ParseLine, HasValue, Lines, FeedAll, Whole;
    LinesOfCrLf(block);
    var lines := Lines(block);
    var front, last := lines[..|lines| - 1], lines[|lines| - 1];
    ReturnedLine(last);
    assert lines == front + [last];
    FeedConcat(EMPTY_STACK, front, [last]);
    FeedConcat(EMPTY_STACK, front, [last + "\r"]);
    FeedOne(FeedAll(EMPTY_STACK, front), last);
    FeedOne(FeedAll(EMPTY_STACK, front), last + "\r");
    WithoutValue(last);
  }

  lemma WithoutValue(line: string)
    ensures HasValue(line) ==> ParseLine(line).Some?
  {
  }

  // The file ---------------------------------------------------------------------------------------------------------

  lemma RuleAfterPlain(c: char, s: string)
    requires c != '\n'
    ensures IndexOfRule([c] + s) == 1 + IndexOfRule(s)
  {
    assert ([c] + s)[1..] == s;
    if |s| >= 3 {
      assert ([c] + s)[..4][0] == c;
    }
  }

  function RuleInReturned(s: string): nat {
    var n := IndexOfRule(s);
    if n < |s| then |CrLf(s[..n])| + 1 else |CrLf(s)|
  }

  /** The rule is found at the line feed, which has its carriage return before it. */
  lemma {:induction false} RuleInCrLf(s: string)
    ensures IndexOfRule(CrLf(s)) == RuleInReturned(s)
  {
    if s == [] {
      assert CrLf(s) == [];
    } else {
      hide CrLf, IndexOfRule, RuleInReturned;
      RuleInCrLf(s[1..]);
      assert s == [s[0]] + s[1..];
      if s[0] == '\n' {
        RuleBehindBreak(s[1..]);
      } else {
        RuleBehindPlain(s[0], s[1..]);
      }
    }
  }

  lemma RuleBehindBreak(t: string)
    requires IndexOfRule(CrLf(t)) == RuleInReturned(t)
    ensures IndexOfRule(CrLf(['\n'] + t)) == RuleInReturned(['\n'] + t)
  {
    hide CrLf, IndexOfRule, StartsWithRule;
    CrLfStarts(t);
    ReturnedBreak(t);
    AfterBreak(t);
    NoLineFeeds();
    if StartsWithRule(t) {
      assert (['\n'] + t)[..0] == [];
    } else {
      var m := IndexOfRule(t);
      CrLfCons('\n', t[..m]);
      assert (['\n'] + t)[..1 + m] == ['\n'] + t[..m];
    }
  }

  lemma ReturnedBreak(t: string)
    ensures CrLf(['\n'] + t) == "\r\n" + CrLf(t)
    ensures IndexOfRule(CrLf(['\n'] + t)) == if StartsWithRule(CrLf(t)) then 1 else 2 + IndexOfRule(CrLf(t))
  {
    hide CrLf, IndexOfRule, StartsWithRule;
    CrLfCons('\n', t);
    AfterBreak(CrLf(t));
    RuleAfterPlain('\r', "\n" + CrLf(t));
    assert CrLf(['\n'] + t) == ['\r'] + ("\n" + CrLf(t));
  }

  lemma RuleBehindPlain(c: char, t: string)
    requires c != '\n' && IndexOfRule(CrLf(t)) == RuleInReturned(t)
    ensures IndexOfRule(CrLf([c] + t)) == RuleInReturned([c] + t)
  {
    var m := IndexOfRule(t);
    hide CrLf, IndexOfRule;
    CrLfCons(c, t);
    CrLfCons(c, t[..m]);
    RuleAfterPlain(c, t);
    RuleAfterPlain(c, CrLf(t));
    assert ([c] + t)[..1 + m] == [c] + t[..m];
  }

  lemma StripBreak(c: char, s: string)
    ensures StripLineBreak("\n" + s) == s && StripLineBreak("\r\n" + s) == s
    ensures c != '\n' && (c == '\r' && s != [] ==> s[0] != '\n') ==> StripLineBreak([c] + s) == [c] + s
  {
    assert ("\n" + s)[1..] == s && ("\r\n" + s)[2..] == s;
  }

  lemma StripBreakOfCrLf(s: string)
    requires |s| >= 2 ==> !(s[0] == '\r' && s[1] == '\n')
    ensures StripLineBreak(CrLf(s)) == CrLf(StripLineBreak(s))
  {
    assert CrLf([]) == [] && StripLineBreak([]) == [];
    hide CrLf, StripLineBreak;
    if s != [] {
      var c, t := s[0], s[1..];
      assert s == [c] + t;
      CrLfCons(c, t);
      CrLfStarts(t);
      StripBreak(c, t);
      StripBreak(c, CrLf(t));
    }
  }

  lemma LineFeedsOnlyWithin(s: string, i: nat, j: nat)
    requires LineFeedsOnly(s) && i <= j <= |s|
    ensures LineFeedsOnly(s[i..j])
  {
    var t := s[i..j];
    forall k | 0 < k < |t| && t[k] == '\n'
      ensures t[k - 1] != '\r'
    {
      assert s[i + k] == '\n';
    }
  }

  /** The block has carriage returns too, and one behind its last line, unless there is no line between the rules. */
  lemma SplitsCrLf(raw: string)
    requires LineFeedsOnly(raw)
    ensures
      var ((block, content), read) := (SplitMatter(raw), SplitMatter(CrLf(raw)));
      && read.1 == CrLf(content)
      && (block.None? ==> read.0 == None)
      && (block.Some? ==>
            LineFeedsOnly(block.value) &&
            (read.0 == Some(CrLf(block.value) + "\r") || (block == Some("") && read.0 == Some(""))))
  {
    hide SplitMatter, CrLf, LineFeedsOnly, IndexOfRule, StripLineBreak, StartsWithRule, IndexOf;
    CrLfStarts(raw);
    var lineEnd := IndexOf(raw, '\n');
    if StartsWithRule(raw) && lineEnd < |raw| {
      StartsBeforeBreak(raw, lineEnd);
      assert raw == raw[..lineEnd] + raw[lineEnd..];
      SplitsCrLfAt(raw[..lineEnd], raw[lineEnd..]);
    } else {
      if StartsWithRule(raw) {
        assert raw[..|raw|] == raw;
        CrLfWithout(raw);
      }
      NothingToSplit(raw);
      NothingToSplit(CrLf(raw));
    }
  }

  lemma NothingToSplit(raw: string)
    requires !StartsWithRule(raw) || '\n' !in raw
    ensures SplitMatter(raw) == (None, raw)
  {
  }

  lemma StartsBeforeBreak(raw: string, lineEnd: nat)
    requires StartsWithRule(raw) && lineEnd < |raw| && raw[lineEnd] == '\n'
    ensures lineEnd >= 3 && StartsWithRule(raw[..lineEnd])
  {
    RuleChars(raw, 0);
    RuleChars(raw, 1);
    RuleChars(raw, 2);
    assert raw[..lineEnd][..3] == raw[..3];
  }

  lemma SplitsCrLfAt(head: string, text: string)
    requires '\n' !in head && StartsWithRule(head) && LineFeedsOnly(head + text) && text != [] && text[0] == '\n'
    ensures
      var ((block, content), read) := (SplitMatter(head + text), SplitMatter(CrLf(head + text)));
      && read.1 == CrLf(content)
      && (block.None? ==> read.0 == None)
      && (block.Some? ==>
            LineFeedsOnly(block.value) &&
            (read.0 == Some(CrLf(block.value) + "\r") || (block == Some("") && read.0 == Some(""))))
  {
    hide IndexOfRule, StripLineBreak, SplitMatter, CrLf, LineFeedsOnly;
    var n := IndexOfRule(text);
    LineFeedsOnlyWithin(head + text, |head|, |head + text|);
    assert (head + text)[|head|..|head + text|] == text;
    SplitAtRule(head, text);
    RuleInCrLf(text);
    CrLfOfBreak(head, text);
    var text' := CrLf(text)[1..];
    RuleAfterPlain('\r', text');
    SplitAtRule(head + "\r", text');
    if n < |text| {
      CutAtRule(text, n);
      LineFeedsOnlyWithin(text, n + 4, |text|);
      NoReturnFirst(text[n + 4..]);
      StripBreakOfCrLf(text[n + 4..]);
      if n > 0 {
        LineFeedsOnlyWithin(text, 1, n);
      } else {
        NoLineFeeds();
      }
    }
  }

  lemma NoLineFeeds()
    ensures LineFeedsOnly("") && CrLf("") == ""
  {
  }

  lemma NoReturnFirst(s: string)
    requires LineFeedsOnly(s)
    ensures |s| >= 2 ==> !(s[0] == '\r' && s[1] == '\n')
  {
  }

  lemma CrLfOfBreak(head: string, text: string)
    requires '\n' !in head && StartsWithRule(head) && text != [] && text[0] == '\n'
    ensures |CrLf(text)| >= 2 && CrLf(text) == ['\r'] + CrLf(text)[1..] && CrLf(text)[1] == '\n'
    ensures CrLf(head + text) == (head + "\r") + CrLf(text)[1..]
    ensures '\n' !in head + "\r" && StartsWithRule(head + "\r")
  {
    CrLfCons('\n', text[1..]);
    hide StartsWithRule, CrLf;
    assert text == ['\n'] + text[1..];
    CrLfWithout(head);
    CrLfConcat(head, text);
    RuleStays(head, "\r");
    assert head + CrLf(text) == head + "\r" + CrLf(text)[1..];
  }

  /** Where the rule is found, `n` characters on, the text with carriage returns falls into the same parts. */
  lemma CutAtRule(text: string, n: nat)
    requires text != [] && text[0] == '\n' && n == IndexOfRule(text) < |text|
    ensures
      var (text', n') := (CrLf(text)[1..], |CrLf(text[..n])|);
      && (n == 0 <==> n' == 0) && n' + 4 <= |text'|
      && text'[n' + 4..] == CrLf(text[n + 4..])
      && (n > 0 ==> text'[1..n'] == CrLf(text[1..n]) + "\r")
  {
    hide IndexOfRule, CrLf;
    RuleIsThere(text, n);
    NoLineFeeds();
    var end := text[n + 4..];
    assert text[..0] == [] && text[n..] == "\n---" + end;
    RuleWithReturn(end);
    var end' := CrLf(end);
    if n == 0 {
      assert text == text[n..];
      assert ("\r\n---" + end')[1..][4..] == end';
    } else {
      var block := text[1..n];
      assert text == ['\n'] + (block + ("\n---" + end)) && text[..n] == ['\n'] + block;
      ReturnedPieces(block, end);
      Pieces(CrLf(block), end');
    }
  }

  lemma ReturnedPieces(block: string, end: string)
    ensures CrLf(['\n'] + block) == "\r\n" + CrLf(block)
    ensures CrLf(['\n'] + (block + ("\n---" + end))) == "\r\n" + (CrLf(block) + ("\r\n---" + CrLf(end)))
  {
    hide CrLf;
    RuleWithReturn(end);
    CrLfCons('\n', block);
    CrLfCons('\n', block + ("\n---" + end));
    CrLfConcat(block, "\n---" + end);
  }

  lemma Pieces(block: string, end: string)
    ensures
      var text := ("\r\n" + (block + ("\r\n---" + end)))[1..];
      var n := |block| + 2;
      n + 4 <= |text| && text[n + 4..] == end && text[1..n] == block + "\r"
  {
    var text := ("\r\n" + (block + ("\r\n---" + end)))[1..];
    assert text == "\n" + block + "\r" + ("\n---" + end);
  }

  lemma RuleWithReturn(end: string)
    ensures CrLf("\n---" + end) == "\r\n---" + CrLf(end)
  {
    CrLfConcat("---", end);
    CrLfWithout("---");
    CrLfCons('\n', "---" + end);
    assert "\n---" + end == ['\n'] + ("---" + end);
  }

  /** Whatever file it is: with carriage returns it is read like the one without them, but for the last line of its
      fields, which is not read if it has a value. */
  lemma CrLfIsReadAs(raw: string)
    requires LineFeedsOnly(raw)
    ensures
      var (block, content) := SplitMatter(raw);
      && FieldsOfFile(CrLf(raw)) == (if block.Some? then FieldsWithoutLastValue(block.value) else [])
      && WorkflowIn(CrLf(raw)) == WorkflowOf(FieldsOfFile(CrLf(raw)), CrLf(content))
  {
    hide SplitMatter, CrLf, LineFeedsOnly, FieldsWithoutLastValue, FieldsIn, WorkflowOf;
    SplitsCrLf(raw);
    NoFields();
    var block := SplitMatter(raw).0;
    if block.Some? {
      FieldsOfCrLf(block.value);
    }
  }

  lemma NoFields()
    ensures FieldsWithoutLastValue("") == FieldsIn("") == []
  {
    NothingParsed();
    assert Lines("") == [""];
    assert ParseLine("") == None;
  }

  // A file that was written ------------------------------------------------------------------------------------------

  /** Without the value of the last line. */
  function Pruned(fields: seq<Field>): seq<Field>
    decreases fields
  {
    if fields == [] then []
    else
      var front, last := fields[..|fields| - 1], fields[|fields| - 1];
      match last.value
      case Scalar(_) => front
      case Record(inner) => front + [Field(last.key, Record(Pruned(inner)))]
  }

  /** The last line has a value that would be read. */
  predicate EndsInScalar(fields: seq<Field>)
    decreases fields
  {
    fields != [] &&
    match fields[|fields| - 1].value
    case Scalar(leaf) => !HasSeparator(Print(leaf))
    case Record(inner) => EndsInScalar(inner)
  }

  lemma {:induction false} GoodPruned(fields: seq<Field>)
    requires Good(fields)
    ensures Good(Pruned(fields)) && (NoRules(fields) ==> NoRules(Pruned(fields)))
    decreases fields
  {
    hide GoodKey, HasKey, StartsWithRule;
    if fields != [] && fields[|fields| - 1].value.Record? {
      var front, last := fields[..|fields| - 1], fields[|fields| - 1];
      GoodPruned(last.value.fields);
      GoodSnoc(front, Field(last.key, Record(Pruned(last.value.fields))));
    }
  }

  lemma EmitSnoc(front: seq<Field>, key: string, inner: seq<Field>, indent: nat)
    ensures
      var fields := front + [Field(key, Record(inner))];
      && Emit(fields, indent) == Emit(front, indent) + [Spaces(indent) + key + ":"] + Emit(inner, indent + 2)
      && Recovered(fields) == Recovered(front) + [Field(key, Record(Recovered(inner)))]
  {
    assert (front + [Field(key, Record(inner))])[..|front|] == front;
  }

  /** What is left when the last line is not read if it has a value. */
  ghost predicate ReadsPruned(fields: seq<Field>, indent: nat) {
    var lines := Emit(fields, indent);
    && lines != []
    && (HasValue(lines[|lines| - 1]) <==> EndsInScalar(fields))
    && (EndsInScalar(fields) ==> lines[..|lines| - 1] == Emit(Pruned(fields), indent))
    && (!EndsInScalar(fields) ==> Recovered(Pruned(fields)) == Recovered(fields))
  }

  lemma {:induction false} LastLine(fields: seq<Field>, indent: nat)
    requires Good(fields) && fields != []
    ensures ReadsPruned(fields, indent)
    decreases fields
  {
    hide GoodKey, HasKey, ReadsPruned, ValidLeaf;
    var front, last := fields[..|fields| - 1], fields[|fields| - 1];
    assert fields == front + [last];
    match last.value
    case Scalar(leaf) => LastScalar(front, last.key, leaf, indent);
    case Record(inner) =>
      if inner != [] {
        LastLine(inner, indent + 2);
      }
      LastRecord(front, last.key, inner, indent);
  }

  lemma LastScalar(front: seq<Field>, key: string, leaf: Leaf, indent: nat)
    requires GoodKey(key) && ValidLeaf(leaf)
    ensures ReadsPruned(front + [Field(key, Scalar(leaf))], indent)
  {
    hide GoodKey, ParseLine, HasSeparator, Print, Read, ValidLeaf, Spaces;
    var fields := front + [Field(key, Scalar(leaf))];
    assert fields[..|front|] == front;
    PrintFitsALine(leaf);
    ScalarLine(key, indent, Print(leaf));
    assert !HasSeparator(Print(leaf)) || Recovered(fields) == Recovered(front) + [];
  }

  lemma LastRecord(front: seq<Field>, key: string, inner: seq<Field>, indent: nat)
    requires GoodKey(key) && (inner != [] ==> ReadsPruned(inner, indent + 2))
    ensures ReadsPruned(front + [Field(key, Record(inner))], indent)
  {
    hide GoodKey, HasValue, Spaces, Emit, Recovered, Pruned, EndsInScalar, ParseLine, Print, HasSeparator, Read;
    KeyHasNoValue(key, indent);
    PrunedSnoc(front, key, inner);
    NothingEmitted(indent + 2);
    var head := Emit(front, indent) + [Spaces(indent) + key + ":"];
    EmitSnoc(front, key, inner, indent);
    if inner == [] {
      assert Emit(front + [Field(key, Record(inner))], indent) == head + [] == head;
    } else {
      EmitSnoc(front, key, Pruned(inner), indent);
      LastOfBoth(head, Emit(inner, indent + 2));
    }
  }

  lemma LastOfBoth<T>(a: seq<T>, b: seq<T>)
    requires b != []
    ensures var all := a + b; all[|all| - 1] == b[|b| - 1] && all[..|all| - 1] == a + b[..|b| - 1]
  {
  }

  lemma KeyHasNoValue(key: string, indent: nat)
    requires GoodKey(key)
    ensures !HasValue(Spaces(indent) + key + ":")
  {
    hide GoodKey, ParseLine;
    RecordLine(key, indent);
  }

  lemma PrunedSnoc(front: seq<Field>, key: string, inner: seq<Field>)
    ensures
      var fields := front + [Field(key, Record(inner))];
      Pruned(fields) == front + [Field(key, Record(Pruned(inner)))] && EndsInScalar(fields) == EndsInScalar(inner)
  {
    var fields := front + [Field(key, Record(inner))];
    assert fields[..|front|] == front;
  }

  lemma NothingEmitted(indent: nat)
    ensures Pruned([]) == [] && !EndsInScalar([]) && Emit([], indent) == []
  {
  }

  lemma {:induction false} PrunedIsSameIff(fields: seq<Field>)
    requires Good(fields)
    ensures Recovered(Pruned(fields)) == Recovered(fields) <==> !EndsInScalar(fields)
    decreases fields
  {
    hide GoodKey, HasKey, HasSeparator, Print, Read, ValidLeaf;
    if fields != [] {
      var front, last := fields[..|fields| - 1], fields[|fields| - 1];
      match last.value
      case Scalar(leaf) =>
        assert |Recovered(fields)| == |Recovered(front)| + if HasSeparator(Print(leaf)) then 0 else 1;
      case Record(inner) =>
        PrunedIsSameIff(inner);
        assert fields == front + [last];
        EmitSnoc(front, last.key, inner, 0);
        EmitSnoc(front, last.key, Pruned(inner), 0);
        var n := |Recovered(front)|;
        assert Recovered(fields)[n] == Field(last.key, Record(Recovered(inner)));
        assert Recovered(Pruned(fields))[n] == Field(last.key, Record(Recovered(Pruned(inner))));
    }
  }

  /** Of a file that was written, with carriage returns, everything is read but the value of the last line. */
  lemma CrLfLosesTheLastValue(data: seq<Field>, body: string)
    requires Good(data) && NoRules(data) && data != [] && LineFeedsOnly(FileOf(data, body))
    ensures FieldsOfFile(CrLf(FileOf(data, body))) == Recovered(Pruned(data))
    ensures WorkflowIn(CrLf(FileOf(data, body))) == WorkflowOf(Recovered(Pruned(data)), CrLf(Trim(body) + "\n"))
  {
    hide SplitMatter, FileOf, CrLf, LineFeedsOnly, Lines, FeedAll, Whole, WorkflowOf, WorkflowIn, FieldsOfFile, Emit,
      FitsALine, HasValue, Good, NoRules, Recovered, Pruned, EndsInScalar;
    SplitsWhatWasWritten(data, body);
    CrLfIsReadAs(FileOf(data, body));
    EmittedLines(data, 0);
    LinesOfJoin(Emit(data, 0));
    LastLine(data, 0);
    assert ReadsPruned(data, 0);
    GoodPruned(data);
    ReadsWhatWasEmitted(data);
    ReadsWhatWasEmitted(Pruned(data));
  }

  /** So the fields are those of the file without carriage returns exactly if the last line is a key without a value, or
      has a value that is not read anyway. */
  lemma CrLfIsReadAsLfIff(data: seq<Field>, body: string)
    requires Good(data) && NoRules(data) && data != [] && LineFeedsOnly(FileOf(data, body))
    ensures FieldsOfFile(CrLf(FileOf(data, body))) == FieldsOfFile(FileOf(data, body)) <==> !EndsInScalar(data)
  {
    hide SplitMatter, FileOf, CrLf, LineFeedsOnly, FieldsIn, Good, NoRules, Recovered, Pruned, EndsInScalar;
    CrLfLosesTheLastValue(data, body);
    SplitsWhatWasWritten(data, body);
    ParsesWhatWasPrinted(data);
    PrunedIsSameIff(data);
  }

  /** A workflow whose trigger is switched off, saved with line feeds and given carriage returns, is read as one whose
      trigger is on: what the last line says is lost, and a trigger is on unless its field says otherwise. */
  lemma CrLfSwitchesATriggerOn(spec: Spec, existing: seq<Field>)
    requires IsNormal(spec) && spec.trigger.Some? && !spec.trigger.value.isEnabled
    requires Good(existing) && NoRules(existing) && !HasKey(existing, "trigger")
    requires LineFeedsOnly(FileOf(DataOf(spec, existing), spec.body))
    ensures
      var read := WorkflowIn(CrLf(FileOf(DataOf(spec, existing), spec.body)));
      read.Some? && read.value.trigger == Some(spec.trigger.value.(isEnabled := true))
  {
    hide Good, NoRules, Lookup, Recovered, Trim, HasSeparator, DataOf, FileOf, WorkflowIn, TriggerOf, NormalizeSchedule,
      CrLf, LineFeedsOnly, TriggerFields, ClampLine, ClampBlock, SourceRefOf;
    var data := DataOf(spec, existing);
    WrittenFields(spec, existing);
    NothingInNothing("name");
    CrLfLosesTheLastValue(data, spec.body);
    TriggerIsLast(spec, existing);
    GoodPruned(data);
    LookupRecovered(Pruned(data), "trigger");
    OnlyTheSchedule(spec.trigger.value.schedule);
  }

  lemma TriggerIsLast(spec: Spec, existing: seq<Field>)
    requires spec.trigger.Some? && !HasKey(existing, "trigger")
    ensures Lookup(Pruned(DataOf(spec, existing)), "trigger") ==
      Some(Record([Field("schedule", Scalar(Text(spec.trigger.value.schedule)))]))
  {
    hide Lookup, PutText, HasKey, Delete, PutRecord;
    var d0 := Set(existing, "name", Scalar(Text(spec.name)));
    var d1 := PutText(d0, "description", spec.description);
    var d2 := Delete(d1, "source");
    var d3 := PutRecord(d2, "metadata", MetadataOf(spec, existing));
    LookupPutRecord(d2, "metadata", MetadataOf(spec, existing), "trigger");
    LookupDelete(d1, "source", "trigger");
    LookupPutText(d0, "description", spec.description, "trigger");
    LookupSet(existing, "name", Scalar(Text(spec.name)), "trigger");
    LookupIffHasKey(existing, "trigger");
    LookupIffHasKey(d3, "trigger");
    PutLast(d3, "trigger", TriggerFields(spec.trigger));
    MetadataOfIs(spec, existing);
    var schedule := Field("schedule", Scalar(Text(spec.trigger.value.schedule)));
    assert TriggerFields(spec.trigger)[..1] == [schedule];
    assert DataOf(spec, existing) == PutRecord(d3, "trigger", TriggerFields(spec.trigger));
    assert (d3 + [Field("trigger", Record(TriggerFields(spec.trigger)))])[..|d3|] == d3;
    LookupSnoc(d3, Field("trigger", Record([schedule])), "trigger");
  }

  lemma PutLast(fields: seq<Field>, key: string, inner: seq<Field>)
    requires !HasKey(fields, key) && inner != []
    ensures PutRecord(fields, key, inner) == fields + [Field(key, Record(inner))]
  {
    SetNew(fields, key, Record(inner));
  }

  lemma OnlyTheSchedule(schedule: string)
    requires NormalizeSchedule(schedule) == schedule != ""
    ensures !HasSeparator(schedule)
    ensures forall data ::
      Lookup(data, "trigger") == Some(Record(Recovered([Field("schedule", Scalar(Text(schedule)))]))) ==>
      data != [] && TriggerOf(data) == Some(Trigger(schedule, true))
  {
    hide NormalizeSchedule, Trim, HasSeparator, Print, Read;
    SpacesOnly(schedule);
    RecoveredText(schedule);
    ReadPrint(Text(schedule));
    var fields := [Field("schedule", Scalar(Text(schedule)))];
    assert fields[..0] == [];
    assert Recovered(fields) == fields;
    assert Lookup(fields, "schedule") == Some(Scalar(Text(schedule)));
    assert Lookup(fields, "enabled") == None;
  }

  /** A name is lost: the file has one field, and with carriage returns it has none. */
  lemma CrLfLosesTheName()
    ensures
      var file := FileOf([Field("name", Scalar(Text("x")))], "b");
      && FieldsOfFile(file) == [Field("name", Scalar(Text("x")))] && FieldsOfFile(CrLf(file)) == []
      && WorkflowIn(CrLf(file)) == Some(Workflow("", "", "b", None, None, []))
  {
    var data := [Field("name", Scalar(Text("x")))];
    NameIsGood();
    NameFile();
    CrLfLosesTheLastValue(data, "b");
    hide FieldsIn, SplitMatter, FileOf, CrLf, LineFeedsOnly, Recovered, WorkflowIn, Emit, FieldsOfFile, WorkflowOf;
    SplitsWhatWasWritten(data, "b");
    ParsesWhatWasPrinted(data);
    NothingRead();
  }

  lemma NameIsGood()
    ensures
      var data := [Field("name", Scalar(Text("x")))];
      && Good(data) && NoRules(data) && Recovered(data) == data && Pruned(data) == [] && Recovered([]) == []
  {
    var data := [Field("name", Scalar(Text("x")))];
    OwnKeysAreGood();
    ReadPrint(Text("x"));
    assert !HasSeparator("x");
    hide GoodKey, Read, Print, HasSeparator, StartsWithRule;
    assert data[..0] == [] && Good([]);
  }

  lemma NameFile()
    ensures LineFeedsOnly(FileOf([Field("name", Scalar(Text("x")))], "b"))
  {
    var data := [Field("name", Scalar(Text("x")))];
    PrintFitsALine(Text("x"));
    hide Print, FileOf;
    assert data[..0] == [];
    var line := Spaces(0) + "name" + ": " + Print(Text("x"));
    assert Emit(data, 0) == [line];
    assert '\r' !in line;
    hide Emit, Spaces;
    TrimmedStays("b");
    assert FileOf(data, "b") == "---\n" + line + "\n---\n" + "b" + "\n" by { NameFileIs(data, line); }
    WithoutReturns("---\n" + line + "\n---\n" + "b" + "\n");
  }

  lemma NameFileIs(data: seq<Field>, line: string)
    requires Emit(data, 0) == [line]
    ensures FileOf(data, "b") == "---\n" + line + "\n---\n" + "b" + "\n"
  {
    TrimmedStays("b");
  }

  lemma WithoutReturns(s: string)
    requires '\r' !in s
    ensures LineFeedsOnly(s)
  {
    assert forall i :: 0 <= i < |s| ==> s[i] in s;
  }

  lemma NothingRead()
    ensures WorkflowOf([], CrLf(Trim("b") + "\n")) == Some(Workflow("", "", "b", None, None, []))
  {
    hide Trim, TrimStart, TrimEnd, CrLf, Lookup, IsSpace;
    BodyOfOne();
    TrimReturned();
    NothingInNothing("name");
    NothingInNothing("description");
    NothingInNothing("trigger");
    NothingInNothing("schedule");
    NothingInNothing("metadata");
    NothingInNothing("source");
    ClampNothing(MAX_NAME_LENGTH);
    ClampNothing(MAX_DESCRIPTION_LENGTH);
  }

  lemma BodyOfOne()
    ensures CrLf(Trim("b") + "\n") == "b\r\n"
  {
    hide Trim;
    assert IsTrimmed("b");
    TrimmedStays("b");
    hide IsTrimmed, IsSpace, CrLf;
    CrLfCons('b', "\n");
    CrLfCons('\n', "");
    NoLineFeeds();
    assert ['b'] + "\n" == "b\n" && ['\n'] + "" == "\n" && Trim("b") + "\n" == "b\n";
  }

  lemma TrimReturned()
    ensures Trim("b\r\n") == "b"
  {
    assert ("b\r\n")[..2] == "b\r" && ("b\r")[..1] == "b";
    assert IsSpace('\n') && IsSpace('\r') && !IsSpace('b');
    hide IsSpace;
    assert TrimEnd("b\r\n") == TrimEnd("b\r") == TrimEnd("b") == "b";
    assert TrimStart("b\r\n") == "b\r\n";
  }
}
