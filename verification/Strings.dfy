/** Splitting and joining text at a separator character. */
module Strings {

  /** The parts of a text that begins with `c` and goes on with `parts`. */
  function PushFront(c: char, parts: seq<string>, sep: char): (r: seq<string>)
    requires |parts| >= 1
    ensures |r| >= 1
  {
    if c == sep then [""] + parts else [[c] + parts[0]] + parts[1..]
  }

  function Split(s: string, sep: char): (parts: seq<string>)
    ensures |parts| >= 1
  {
    if s == [] then [""] else PushFront(s[0], Split(s[1..], sep), sep)
  }

  function Join(parts: seq<string>, sep: char): string {
    if parts == [] then ""
    else if |parts| == 1 then parts[0]
    else parts[0] + [sep] + Join(parts[1..], sep)
  }

  lemma PushFrontConcat(c: char, a: seq<string>, b: seq<string>, sep: char)
    requires |a| >= 1
    ensures PushFront(c, a + b, sep) == PushFront(c, a, sep) + b
  {
    assert (a + b)[1..] == a[1..] + b;
  }

  lemma {:induction false} SplitWhole(s: string, sep: char)
    requires sep !in s
    ensures Split(s, sep) == [s]
  {
    if s != [] {
      SplitWhole(s[1..], sep);
      assert s == [s[0]] + s[1..];
    }
  }

  /** The text before a separator only affects the parts up to that separator. */
  lemma {:induction false} SplitAtSeparator(a: string, b: string, sep: char)
    ensures Split(a + [sep] + b, sep) == Split(a, sep) + Split(b, sep)
  {
    var text := a + [sep] + b;
    if a == [] {
      assert text == [sep] + b && text[1..] == b;
    } else {
      SplitAtSeparator(a[1..], b, sep);
      assert text[0] == a[0] && text[1..] == a[1..] + [sep] + b;
      PushFrontConcat(a[0], Split(a[1..], sep), Split(b, sep), sep);
    }
  }

  lemma {:induction false} SplitJoin(parts: seq<string>, sep: char)
    requires |parts| >= 1
    requires forall p :: p in parts ==> sep !in p
    ensures Split(Join(parts, sep), sep) == parts
  {
    SplitWhole(parts[0], sep);
    if |parts| == 1 {
      assert parts == [parts[0]];
    } else {
      SplitJoin(parts[1..], sep);
      SplitAtSeparator(parts[0], Join(parts[1..], sep), sep);
      assert parts == [parts[0]] + parts[1..];
    }
  }

  /** Text that comes later only goes on from the last part. */
  lemma {:induction false} SplitAppend(a: string, b: string, sep: char)
    ensures
      var parts := Split(a, sep);
      Split(a + b, sep) == parts[..|parts| - 1] + Split(parts[|parts| - 1] + b, sep)
  {
    if a == [] {
      assert a + b == b;
    } else {
      var rest := Split(a[1..], sep);
      SplitAppend(a[1..], b, sep);
      assert (a + b)[1..] == a[1..] + b;
      PushedParts(a[0], rest, b, sep);
    }
  }

  lemma PushedParts(c: char, parts: seq<string>, b: string, sep: char)
    requires |parts| >= 1
    ensures
      var pushed := PushFront(c, parts, sep);
      PushFront(c, parts[..|parts| - 1] + Split(parts[|parts| - 1] + b, sep), sep) ==
      pushed[..|pushed| - 1] + Split(pushed[|pushed| - 1] + b, sep)
  {
    var last := parts[|parts| - 1] + b;
    if |parts| == 1 && c != sep {
      assert ([c] + last)[1..] == last;
      assert [c] + parts[0] + b == [c] + last;
      assert parts[..0] + Split(last, sep) == Split(last, sep);
    } else if |parts| > 1 {
      var all := parts[..|parts| - 1] + Split(last, sep);
      assert all[0] == parts[0] && all[1..] == parts[1..|parts| - 1] + Split(last, sep);
    } else {
      assert parts[..0] + Split(last, sep) == Split(last, sep);
    }
  }
}
