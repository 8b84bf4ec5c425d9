/** How the texts of a workflow are brought into shape: line breaks and white space, and the longest text allowed. */
module Clamping {
  import opened ScalarText

  function Cut(s: string, max: nat): string { if |s| > max then s[..max] else s }

  predicate IsLineBreak(c: char) { c == '\r' || c == '\n' }

  /** Every run of such characters becomes one space. */
  function Squeezed(s: string, gap: char -> bool, inRun: bool): string {
    if s == [] then []
    else if gap(s[0]) then (if inRun then [] else [' ']) + Squeezed(s[1..], gap, true)
    else [s[0]] + Squeezed(s[1..], gap, false)
  }

  function ClampLine(s: string, max: nat): string { Cut(Trim(Squeezed(s, IsLineBreak, false)), max) }

  function ClampBlock(s: string, max: nat): string { Cut(Trim(s), max) }

  function NormalizeSchedule(s: string): string { Squeezed(Trim(s), IsSpace, false) }

  // Squeezing --------------------------------------------------------------------------------------------------------

  ghost predicate IsFree(s: string, gap: char -> bool) { forall c :: c in s ==> !gap(c) }

  ghost predicate IsRun(s: string, gap: char -> bool) { s != "" && forall c :: c in s ==> gap(c) }

  /** What has no run in it stays, and each run between two such texts is one space. */
  lemma RunBecomesASpace(a: string, run: string, b: string, gap: char -> bool)
    requires IsFree(a, gap) && IsRun(run, gap) && (b == "" || !gap(b[0]))
    ensures Squeezed(a, gap, false) == a
    ensures Squeezed(a + run + b, gap, false) == a + " " + Squeezed(b, gap, false)
  {
    hide Squeezed;
    FreeStays(a, run + b, gap, false);
    FreeStays(a, "", gap, false);
    NothingSqueezed(gap);
    RunSqueezed(run, b, gap, false);
    assert a + run + b == a + (run + b);
    assert a + "" == a;
  }

  lemma NothingSqueezed(gap: char -> bool)
    ensures Squeezed("", gap, false) == ""
  {
  }

  lemma {:induction false} FreeStays(a: string, rest: string, gap: char -> bool, inRun: bool)
    requires IsFree(a, gap)
    ensures Squeezed(a + rest, gap, inRun) == a + Squeezed(rest, gap, a == "" && inRun)
  {
    if a == "" {
      assert a + rest == rest;
    } else {
      assert (a + rest)[1..] == a[1..] + rest;
      FreeStays(a[1..], rest, gap, false);
    }
  }

  lemma {:induction false} RunSqueezed(run: string, b: string, gap: char -> bool, inRun: bool)
    requires IsRun(run, gap) && (b == "" || !gap(b[0]))
    ensures Squeezed(run + b, gap, inRun) == (if inRun then "" else " ") + Squeezed(b, gap, false)
  {
    assert (run + b)[1..] == run[1..] + b;
    if |run| > 1 {
      RunSqueezed(run[1..], b, gap, true);
    } else {
      assert run[1..] + b == b;
    }
  }

  lemma {:induction false} SqueezedChars(s: string, gap: char -> bool, inRun: bool)
    ensures |Squeezed(s, gap, inRun)| <= |s|
    ensures forall c :: c in Squeezed(s, gap, inRun) ==> c == ' ' || !gap(c)
  {
    if s != "" {
      SqueezedChars(s[1..], gap, true);
      SqueezedChars(s[1..], gap, false);
    }
  }

  /** Already squeezed: the gaps are spaces, and no two are next to each other. */
  ghost predicate IsSqueezed(s: string, gap: char -> bool, inRun: bool) {
    && (inRun && s != "" ==> !gap(s[0]))
    && (forall i :: 0 <= i < |s| && gap(s[i]) ==> s[i] == ' ' && (i + 1 < |s| ==> !gap(s[i + 1])))
  }

  lemma SqueezedRest(s: string, gap: char -> bool, inRun: bool)
    requires s != ""
    ensures IsSqueezed(s, gap, inRun) <==>
      IsSqueezed(s[1..], gap, gap(s[0])) && (gap(s[0]) ==> s[0] == ' ' && !inRun)
  {
    if IsSqueezed(s[1..], gap, gap(s[0])) && (gap(s[0]) ==> s[0] == ' ' && !inRun) {
      forall i | 0 <= i < |s| && gap(s[i])
        ensures s[i] == ' ' && (i + 1 < |s| ==> !gap(s[i + 1]))
      {
        if i > 0 {
          assert s[1..][i - 1] == s[i];
          assert i + 1 < |s| ==> s[1..][i] == s[i + 1];
        }
      }
    }
  }

  lemma {:induction false} SqueezedIff(s: string, gap: char -> bool, inRun: bool)
    ensures Squeezed(s, gap, inRun) == s <==> IsSqueezed(s, gap, inRun)
  {
    if s != "" {
      hide IsSqueezed;
      SqueezedRest(s, gap, inRun);
      SqueezedIff(s[1..], gap, gap(s[0]));
      SqueezedChars(s[1..], gap, true);
      assert s == [s[0]] + s[1..];
    }
  }

  lemma {:induction false} SqueezedOnce(s: string, gap: char -> bool, inRun: bool)
    requires gap(' ')
    ensures IsSqueezed(Squeezed(s, gap, inRun), gap, inRun)
    ensures s != "" && !gap(s[0]) ==> Squeezed(s, gap, inRun) != "" && Squeezed(s, gap, inRun)[0] == s[0]
  {
    if s != "" {
      var rest := Squeezed(s[1..], gap, gap(s[0]));
      SqueezedOnce(s[1..], gap, gap(s[0]));
      hide IsSqueezed;
      var t := Squeezed(s, gap, inRun);
      if !(gap(s[0]) && inRun) {
        assert t[1..] == rest;
        SqueezedRest(t, gap, inRun);
      }
    }
  }

  lemma {:induction false} LastStays(s: string, gap: char -> bool, inRun: bool)
    requires s != "" && !gap(s[|s| - 1])
    ensures var t := Squeezed(s, gap, inRun); t != "" && t[|t| - 1] == s[|s| - 1]
  {
    if |s| > 1 {
      LastStays(s[1..], gap, gap(s[0]));
    }
  }

  // Clamping ---------------------------------------------------------------------------------------------------------

  ghost predicate IsOneLine(s: string) { '\r' !in s && '\n' !in s }

  /** A text that does not end in white space. */
  predicate EndsInText(s: string) { s == "" || !IsSpace(s[|s| - 1]) }

  lemma OneLineStays(s: string)
    requires IsOneLine(s)
    ensures Squeezed(s, IsLineBreak, false) == s
  {
    assert IsFree(s, IsLineBreak);
    FreeStays(s, "", IsLineBreak, false);
    NothingSqueezed(IsLineBreak);
    assert s + "" == s;
  }

  lemma TrimShortens(s: string)
    ensures |Trim(s)| <= |s|
    ensures Trim(s) != "" ==> Trim(s)[0] in s
    ensures forall c :: c in Trim(s) ==> c in s
    ensures Trim(s) == "" || !IsSpace(Trim(s)[0])
  {
    hide IsSpace;
    var n := TrimStartDrops(s);
    var r := TrimStart(s);
    assert forall c :: c in r ==> c in s;
    hide TrimStart;
    assert TrimEnd(r) <= r;
  }

  lemma TrimmedIff(s: string)
    ensures Trim(s) == s <==> IsTrimmed(s)
  {
    hide Trim, IsTrimmed;
    TrimIsTrimmed(s);
    if IsTrimmed(s) {
      TrimmedStays(s);
    }
  }

  /** A clamped line is not too long, is one line, and does not begin with white space. */
  lemma ClampedLine(s: string, max: nat)
    ensures var r := ClampLine(s, max); |r| <= max && IsOneLine(r) && (r == "" || !IsSpace(r[0]))
  {
    var t := Squeezed(s, IsLineBreak, false);
    SqueezedChars(s, IsLineBreak, false);
    assert IsOneLine(t) by {
      assert IsLineBreak('\r') && IsLineBreak('\n');
    }
    hide Squeezed, Trim, IsSpace, IsLineBreak;
    TrimShortens(t);
    assert forall c :: c in Cut(Trim(t), max) ==> c in t;
  }

  /** Clamping leaves exactly the lines alone that are trimmed and not too long. */
  lemma LineIsClampedIff(s: string, max: nat)
    ensures ClampLine(s, max) == s <==> |s| <= max && IsTrimmed(s) && IsOneLine(s)
  {
    ClampedLine(s, max);
    hide Squeezed, Trim, IsTrimmed, IsOneLine;
    if IsOneLine(s) {
      OneLineStays(s);
      TrimShortens(s);
      TrimmedIff(s);
    }
  }

  /** And exactly the blocks. */
  lemma BlockIsClampedIff(s: string, max: nat)
    ensures ClampBlock(s, max) == s <==> |s| <= max && IsTrimmed(s)
  {
    hide Trim, IsTrimmed;
    TrimShortens(s);
    TrimmedIff(s);
  }

  /** So a clamped text stays as it is when it is clamped again, unless it was cut behind white space. */
  lemma ClampedTwiceIff(s: string, max: nat)
    ensures ClampLine(ClampLine(s, max), max) == ClampLine(s, max) <==> EndsInText(ClampLine(s, max))
    ensures ClampBlock(ClampBlock(s, max), max) == ClampBlock(s, max) <==> EndsInText(ClampBlock(s, max))
  {
    ClampedLine(s, max);
    TrimShortens(s);
    hide Squeezed, Trim, IsSpace, ClampLine;
    LineIsClampedIff(ClampLine(s, max), max);
    BlockIsClampedIff(ClampBlock(s, max), max);
  }

  /** A name of a word more, cut behind the space, loses the space when it is read again. */
  lemma CutBehindASpace(line: string, max: nat)
    requires line != "" && IsTrimmed(line) && IsOneLine(line) && |line| + 1 == max
    ensures ClampLine(line + " b", max) == line + " " && ClampLine(line + " ", max) == line
  {
    hide Squeezed;
    assert !IsSpace('b') && IsSpace(' ');
    hide IsSpace;
    OneLineStays(line + " b");
    OneLineStays(line + " ");
    TrimmedStays(line + " b");
    SpaceBehind(line, ' ');
    hide Trim;
    assert (line + " b")[..max] == line + " ";
  }

  /** A schedule is left as it is exactly if it is trimmed, with one space between its fields. */
  lemma ScheduleIsNormalIff(s: string)
    ensures NormalizeSchedule(s) == s <==> IsTrimmed(s) && IsSqueezed(s, IsSpace, false)
  {
    SqueezedChars(Trim(s), IsSpace, false);
    hide Squeezed, Trim, IsTrimmed, IsSqueezed;
    TrimShortens(s);
    TrimmedIff(s);
    SqueezedIff(s, IsSpace, false);
    NormalizedIsTrimmed(s);
  }

  lemma NormalizedIsTrimmed(s: string)
    ensures IsTrimmed(NormalizeSchedule(s)) && IsSqueezed(NormalizeSchedule(s), IsSpace, false)
  {
    TrimIsTrimmed(s);
    var t := Trim(s);
    assert IsSpace(' ');
    SqueezedOnce(t, IsSpace, false);
    hide Squeezed, Trim, IsSqueezed;
    if t != "" {
      LastStays(t, IsSpace, false);
    } else {
      NothingSqueezed(IsSpace);
    }
  }

  /** Once is enough for a schedule. */
  lemma NormalizedTwice(s: string)
    ensures NormalizeSchedule(NormalizeSchedule(s)) == NormalizeSchedule(s)
  {
    hide NormalizeSchedule, IsTrimmed, IsSqueezed;
    NormalizedIsTrimmed(s);
    ScheduleIsNormalIff(NormalizeSchedule(s));
  }

  lemma SpacesOnly(s: string)
    ensures !HasSeparator(NormalizeSchedule(s))
  {
    SqueezedChars(Trim(s), IsSpace, false);
    assert IsSpace('\U{2028}') && IsSpace('\U{2029}');
    hide IsSpace, Squeezed;
  }
}
