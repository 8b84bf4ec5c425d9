/** The event stream: the frames a gateway writes and the reader that undoes them, chunk by chunk
    (section 9.2 of the WHATWG HTML Standard). Text is taken as the streaming decoder hands it over. */
module SseReader {

  import opened Options
  import opened Strings

  // The reader -------------------------------------------------------------------------------------------------------

  /** The line that is not complete yet, the data of the event under way, and the events yielded. */
  datatype Reader<E> = Reader(buffer: string, dataBuffer: string, events: seq<E>)

  const DATA_PREFIX := "data: "

  function IsData(line: string): bool { |line| >= 6 && line[..6] == DATA_PREFIX }

  /** A complete line. Text that does not parse is dropped. */
  function Take<E>(r: Reader<E>, line: string, parse: string -> Option<E>): Reader<E> {
    if IsData(line) then r.(dataBuffer := r.dataBuffer + line[6..])
    else if line == "" && r.dataBuffer != "" then
      var event := parse(r.dataBuffer);
      r.(dataBuffer := "", events := if event.Some? then r.events + [event.value] else r.events)
    else r
  }

  function TakeAll<E>(r: Reader<E>, lines: seq<string>, parse: string -> Option<E>): Reader<E> {
    if lines == [] then r else Take(TakeAll(r, lines[..|lines| - 1], parse), lines[|lines| - 1], parse)
  }

  /** A chunk completes some lines; the last piece waits for the next chunk. */
  function Feed<E>(r: Reader<E>, chunk: string, parse: string -> Option<E>): Reader<E> {
    var parts := Split(r.buffer + chunk, '\n');
    TakeAll(r, parts[..|parts| - 1], parse).(buffer := parts[|parts| - 1])
  }

  /** The reader that got the whole text at once. */
  function After<E>(text: string, parse: string -> Option<E>): Reader<E> { Feed(Reader("", "", []), text, parse) }

  function Concat(chunks: seq<string>): string {
    if chunks == [] then "" else Concat(chunks[..|chunks| - 1]) + chunks[|chunks| - 1]
  }

  method ReadSseEvents<E>(chunks: seq<string>, parse: string -> Option<E>) returns (events: seq<E>)
    ensures events == After(Concat(chunks), parse).events
  {
    hide Split, Take;
    var buffer, dataBuffer := "", "";
    events := [];
    ghost var reader: Reader<E> := Reader("", "", []);
    AfterNothing(parse);
    for i := 0 to |chunks|
      invariant reader == Reader(buffer, dataBuffer, events) == After(Concat(chunks[..i]), parse)
    {
      assert chunks[..i + 1][..i] == chunks[..i];
      FeedAfter(Concat(chunks[..i]), chunks[i], parse);
      var parts := Split(buffer + chunks[i], '\n');
      buffer := parts[|parts| - 1];
      var lines := parts[..|parts| - 1];
      for k := 0 to |lines|
        invariant TakeAll(reader, lines[..k], parse) == Reader(reader.buffer, dataBuffer, events)
      {
        assert lines[..k + 1][..k] == lines[..k];
        dataBuffer, events := TakeLine(dataBuffer, events, lines[k], parse, reader.buffer);
      }
      assert lines[..|lines|] == lines;
      reader := Feed(reader, chunks[i], parse);
    }
    assert chunks[..|chunks|] == chunks;
  }

  method TakeLine<E>(data: string, yielded: seq<E>, line: string, parse: string -> Option<E>, ghost buffer: string)
      returns (dataBuffer: string, events: seq<E>)
    ensures Reader(buffer, dataBuffer, events) == Take(Reader(buffer, data, yielded), line, parse)
  {
    dataBuffer, events := data, yielded;
    if IsData(line) {
      dataBuffer := dataBuffer + line[6..];
    } else if line == "" && dataBuffer != "" {
      var event := parse(dataBuffer);
      if event.Some? {
        events := events + [event.value];
      }
      dataBuffer := "";
    }
  }

  // Any chunking is as good as none ----------------------------------------------------------------------------------

  lemma AfterNothing<E>(parse: string -> Option<E>)
    ensures After("", parse) == Reader("", "", [])
  {
  }

  lemma {:induction false} TakeAllConcat<E>(r: Reader<E>, a: seq<string>, b: seq<string>, parse: string -> Option<E>)
    ensures TakeAll(r, a + b, parse) == TakeAll(TakeAll(r, a, parse), b, parse)
  {
    hide Take;
    if b == [] {
      assert a + b == a;
    } else {
      TakeAllConcat(r, a, b[..|b| - 1], parse);
      assert (a + b)[..|a + b| - 1] == a + b[..|b| - 1];
    }
  }

  /** Complete lines do not look at the incomplete one. */
  lemma {:induction false} BufferIsIdle<E>(r: Reader<E>, lines: seq<string>, buffer: string, parse: string -> Option<E>)
    ensures TakeAll(r.(buffer := buffer), lines, parse) == TakeAll(r, lines, parse).(buffer := buffer)
  {
    if lines != [] {
      BufferIsIdle(r, lines[..|lines| - 1], buffer, parse);
    }
  }

  /** A chunk after some text leaves the reader as the two together would have. */
  lemma FeedAfter<E>(text: string, chunk: string, parse: string -> Option<E>)
    ensures Feed(After(text, parse), chunk, parse) == After(text + chunk, parse)
  {
    hide Split, Take, TakeAll;
    var start: Reader<E> := Reader("", "", []);
    var parts := Split(text, '\n');
    var lines, rest := parts[..|parts| - 1], parts[|parts| - 1];
    var more := Split(rest + chunk, '\n');
    assert "" + text == text && "" + (text + chunk) == text + chunk;
    SplitAppend(text, chunk, '\n');
    var all := Split(text + chunk, '\n');
    assert all[..|all| - 1] == lines + more[..|more| - 1] && all[|all| - 1] == more[|more| - 1];
    TakeAllConcat(start, lines, more[..|more| - 1], parse);
    BufferIsIdle(TakeAll(start, lines, parse), more[..|more| - 1], rest, parse);
  }

  // What lines mean --------------------------------------------------------------------------------------------------

  /** Data adds up over the lines of an event; a blank line ends the event, which is dropped if it does not parse; a
      blank line without data, and every other line, means nothing. */
  lemma LinesMean<E>(r: Reader<E>, text: string, parse: string -> Option<E>)
    ensures Take(r, "data: " + text, parse) == r.(dataBuffer := r.dataBuffer + text)
    ensures r.dataBuffer != "" && parse(r.dataBuffer).Some? ==>
      Take(r, "", parse) == Reader(r.buffer, "", r.events + [parse(r.dataBuffer).value])
    ensures r.dataBuffer != "" && parse(r.dataBuffer).None? ==> Take(r, "", parse) == Reader(r.buffer, "", r.events)
    ensures r.dataBuffer == "" ==> Take(r, "", parse) == r
    ensures text != "" && !(|text| >= 6 && text[..6] == "data: ") ==> Take(r, text, parse) == r
  {
    assert ("data: " + text)[..6] == "data: " && ("data: " + text)[6..] == text;
  }

  function DataLines(texts: seq<string>): seq<string> {
    seq(|texts|, i requires 0 <= i < |texts| => "data: " + texts[i])
  }

  lemma {:induction false} DataAddsUp<E>(r: Reader<E>, texts: seq<string>, parse: string -> Option<E>)
    ensures TakeAll(r, DataLines(texts), parse) == r.(dataBuffer := r.dataBuffer + Concat(texts))
  {
    hide Take;
    if texts == [] {
      assert DataLines(texts) == [] && r.dataBuffer + "" == r.dataBuffer;
    } else {
      var front, last := texts[..|texts| - 1], texts[|texts| - 1];
      DataAddsUp(r, front, parse);
      assert DataLines(texts)[..|texts| - 1] == DataLines(front);
      LinesMean(TakeAll(r, DataLines(front), parse), last, parse);
      assert r.dataBuffer + Concat(front) + last == r.dataBuffer + (Concat(front) + last);
    }
  }

  /** An event may be spread over any number of data lines. */
  lemma EventOfManyLines<E>(texts: seq<string>, parse: string -> Option<E>)
    requires texts != [] && Concat(texts) != "" && forall text :: text in texts ==> '\n' !in text
    ensures
      var event := parse(Concat(texts));
      After(Join(DataLines(texts), '\n') + "\n\n", parse) ==
      Reader("", "", if event.Some? then [event.value] else [])
  {
    hide Split, Take, Concat;
    var start: Reader<E> := Reader("", "", []);
    var lines := DataLines(texts);
    forall i | 0 <= i < |lines|
      ensures '\n' !in lines[i]
    {
      assert texts[i] in texts;
    }
    SplitJoin(lines, '\n');
    SplitAtSeparator(Join(lines, '\n'), "\n", '\n');
    SplitTwoBreaks();
    assert Join(lines, '\n') + "\n\n" == Join(lines, '\n') + ['\n'] + "\n";
    assert "" + (Join(lines, '\n') + "\n\n") == Join(lines, '\n') + "\n\n";
    var parts := Split(Join(lines, '\n') + "\n\n", '\n');
    assert parts == lines + ["", ""] && parts[..|parts| - 1] == lines + [""];
    DataAddsUp(start, texts, parse);
    LinesMean(TakeAll(start, lines, parse), "", parse);
    assert (lines + [""])[..|lines|] == lines;
    assert "" + Concat(texts) == Concat(texts);
  }

  lemma SplitTwoBreaks()
    ensures Split("\n", '\n') == ["", ""]
  {
    assert "\n"[1..] == "";
  }

  // The frames -------------------------------------------------------------------------------------------------------

  datatype Frame<E> = Retry | Ping | Data(event: E)

  /** How events are written and read: any event's text is one nonempty line and parses as that event. */
  ghost predicate IsCodec<E(!new)>(stringify: E -> string, parse: string -> Option<E>) {
    forall e :: parse(stringify(e)) == Some(e) && stringify(e) != "" && '\n' !in stringify(e)
  }

  /** What a frame has before its two line breaks. */
  function Line<E>(frame: Frame<E>, stringify: E -> string): string {
    match frame
    case Retry => "retry: 1000"
    case Ping => ":ping"
    case Data(event) => DATA_PREFIX + stringify(event)
  }

  function Written<E>(frames: seq<Frame<E>>, stringify: E -> string): string {
    if frames == [] then ""
    else Written(frames[..|frames| - 1], stringify) + Line(frames[|frames| - 1], stringify) + "\n\n"
  }

  /** The frames as the standard has them. */
  lemma FramesAre<E>(frames: seq<Frame<E>>, event: E, stringify: E -> string)
    ensures Written(frames + [Data(event)], stringify) ==
      Written(frames, stringify) + "data: " + stringify(event) + "\n\n"
    ensures Written(frames + [Retry], stringify) == Written(frames, stringify) + "retry: 1000\n\n"
    ensures Written(frames + [Ping], stringify) == Written(frames, stringify) + ":ping\n\n"
  {
    assert (frames + [Data(event)])[..|frames|] == frames;
    assert (frames + [Retry])[..|frames|] == frames;
    assert (frames + [Ping])[..|frames|] == frames;
  }

  function EventsOf<E>(frames: seq<Frame<E>>): seq<E> {
    if frames == [] then []
    else
      var last := frames[|frames| - 1];
      EventsOf(frames[..|frames| - 1]) + if last.Data? then [last.event] else []
  }

  lemma NextStays<T>(all: seq<T>, some: seq<T>)
    requires all != [] && some <= all[..|all| - 1]
    ensures some <= all
    ensures var front := all[..|all| - 1]; if some == front then all[..|some| + 1] == all
      else |some| < |front| && front[..|some| + 1] == all[..|some| + 1]
  {
  }

  lemma NothingWritten<E>(stringify: E -> string)
    ensures Written([], stringify) == ""
  {
  }

  /** The frames that are complete once `received` characters have come in. */
  function Complete<E>(frames: seq<Frame<E>>, stringify: E -> string, received: nat): (r: seq<Frame<E>>)
    ensures r <= frames && |Written(r, stringify)| <= received
    ensures r == frames || |Written(frames[..|r| + 1], stringify)| > received
  {
    NothingWritten(stringify);
    hide Written;
    if |Written(frames, stringify)| <= received then frames
    else
      var r := Complete(frames[..|frames| - 1], stringify, received);
      NextStays(frames, r);
      r
  }

  lemma LineIsPlain<E(!new)>(frame: Frame<E>, stringify: E -> string, parse: string -> Option<E>)
    requires IsCodec(stringify, parse)
    ensures var line := Line(frame, stringify); line != "" && '\n' !in line
    ensures var line := Line(frame, stringify); IsData(line) <==> frame.Data?
    ensures frame.Data? ==> Line(frame, stringify)[6..] == stringify(frame.event)
  {
    if frame.Data? {
      var data := stringify(frame.event);
      assert data != "" && '\n' !in data;
      assert (DATA_PREFIX + data)[..6] == DATA_PREFIX;
      assert (DATA_PREFIX + data)[6..] == data;
      assert '\n' !in DATA_PREFIX;
    }
    assert "retry: 1000"[..6][0] == 'r' && DATA_PREFIX[0] == 'd';
  }

  /** What the part of a frame that has come in does to a reader that stands between frames. */
  lemma FeedPart<E(!new)>(events: seq<E>, frame: Frame<E>, m: nat, stringify: E -> string, parse: string -> Option<E>)
    requires IsCodec(stringify, parse) && m <= |Line(frame, stringify)| + 2
    ensures
      var after := Feed(Reader("", "", events), (Line(frame, stringify) + "\n\n")[..m], parse);
      if m < |Line(frame, stringify)| + 2 then after.events == events
      else after == Reader("", "", events + if frame.Data? then [frame.event] else [])
  {
    hide IsCodec, IsData, Line;
    var line, r := Line(frame, stringify), Reader("", "", events);
    var piece := (line + "\n\n")[..m];
    LineIsPlain(frame, stringify, parse);
    assert "" + piece == piece;
    assert [line][..0] == [] && [line, ""][..1] == [line];
    if m <= |line| {
      assert piece == line[..m];
      SplitWhole(piece, '\n');
      assert [piece][..0] == [];
    } else {
      SplitAtSeparator(line, "", '\n');
      SplitWhole(line, '\n');
      assert Split(line + ['\n'] + "", '\n') == [line, ""];
      if m == |line| + 1 {
        assert piece == line + ['\n'] + "";
        assert [line, ""][..|[line, ""]| - 1] == [line];
        assert TakeAll(r, [line], parse) == Take(r, line, parse);
      } else {
        assert piece == (line + ['\n'] + "") + ['\n'] + "";
        SplitAtSeparator(line + ['\n'] + "", "", '\n');
        assert Split(piece, '\n') == [line, "", ""];
        assert [line, "", ""][..2] == [line, ""];
        FrameTaken(events, frame, stringify, parse);
      }
    }
  }

  lemma FrameTaken<E(!new)>(events: seq<E>, frame: Frame<E>, stringify: E -> string, parse: string -> Option<E>)
    requires IsCodec(stringify, parse)
    ensures TakeAll(Reader("", "", events), [Line(frame, stringify), ""], parse) ==
      Reader("", "", events + if frame.Data? then [frame.event] else [])
  {
    assert !IsData("");
    hide IsData, Line;
    var line, r := Line(frame, stringify), Reader("", "", events);
    LineIsPlain(frame, stringify, parse);
    assert [line, ""][..1] == [line] && [line][..0] == [];
    assert TakeAll(r, [line], parse) == Take(r, line, parse);
    assert TakeAll(r, [line, ""], parse) == Take(Take(r, line, parse), "", parse);
    if frame.Data? {
      assert parse(stringify(frame.event)) == Some(frame.event);
      assert "" + stringify(frame.event) == stringify(frame.event);
    }
  }

  /** However much of the stream has come in, exactly the events of the complete frames have been read. */
  lemma {:induction false} PrefixIsRead<E(!new)>(frames: seq<Frame<E>>, k: nat, stringify: E -> string,
      parse: string -> Option<E>)
    requires IsCodec(stringify, parse) && k <= |Written(frames, stringify)|
    ensures After(Written(frames, stringify)[..k], parse).events == EventsOf(Complete(frames, stringify, k))
    ensures k == |Written(frames, stringify)| ==>
      After(Written(frames, stringify), parse) == Reader("", "", EventsOf(frames))
  {
    hide IsCodec, Line, Take, Split;
    if frames == [] {
      AfterNothing(parse);
    } else {
      var front, last := frames[..|frames| - 1], frames[|frames| - 1];
      var before := Written(front, stringify);
      var text := Written(frames, stringify)[..k];
      assert Written(frames, stringify) == before + (Line(last, stringify) + "\n\n");
      if k <= |before| {
        PrefixIsRead(front, k, stringify, parse);
        assert text == before[..k];
      } else {
        PrefixIsRead(front, |before|, stringify, parse);
        var m := k - |before|;
        var piece := (Line(last, stringify) + "\n\n")[..m];
        assert text == before + piece;
        FeedAfter(before, piece, parse);
        FeedPart(EventsOf(front), last, m, stringify, parse);
        if k == |Written(frames, stringify)| {
          assert text == Written(frames, stringify);
        } else {
          assert Complete(frames, stringify, k) == Complete(front, stringify, k) == front;
        }
      }
    }
  }

  /** Whatever the chunks, the reader yields the events whose frames are complete in them, in order. */
  lemma FramingIsUndone<E(!new)>(frames: seq<Frame<E>>, chunks: seq<string>, stringify: E -> string,
      parse: string -> Option<E>)
    requires IsCodec(stringify, parse) && Concat(chunks) <= Written(frames, stringify)
    ensures After(Concat(chunks), parse).events == EventsOf(Complete(frames, stringify, |Concat(chunks)|))
    ensures Concat(chunks) == Written(frames, stringify) ==> After(Concat(chunks), parse).events == EventsOf(frames)
  {
    hide IsCodec, Written, After;
    PrefixIsRead(frames, |Concat(chunks)|, stringify, parse);
    assert Written(frames, stringify)[..|Concat(chunks)|] == Concat(chunks);
  }

  // The writer -------------------------------------------------------------------------------------------------------

  /** An open stream: the text in its sink, and the frames that it is. */
  class SseStream<E(!new)> {
    const stringify: E -> string
    var sink: string
    var isOpen: bool
    ghost var frames: seq<Frame<E>>

    ghost predicate Valid()
      reads this
    {
      sink == Written(frames, stringify)
    }

    /** The first frame tells the client when to reconnect. */
    constructor (stringify: E -> string)
      ensures Valid() && isOpen && frames == [Retry] && this.stringify == stringify
    {
      this.stringify := stringify;
      sink := "retry: 1000\n\n";
      isOpen := true;
      frames := [Retry];
      new;
      WrittenMore([], Retry, stringify);
    }

    method Write(event: E)
      requires Valid() && isOpen
      modifies this
      ensures Valid() && isOpen && frames == old(frames) + [Data(event)]
    {
      WrittenMore(frames, Data(event), stringify);
      sink := sink + "data: " + stringify(event) + "\n\n";
      frames := frames + [Data(event)];
    }

    method Heartbeat()
      requires Valid() && isOpen
      modifies this
      ensures Valid() && isOpen && frames == old(frames) + [Ping]
    {
      WrittenMore(frames, Ping, stringify);
      sink := sink + ":ping\n\n";
      frames := frames + [Ping];
    }

    /** Clears the heartbeat and unsubscribes, so that nothing is written any more. */
    method Close()
      requires Valid()
      modifies this
      ensures Valid() && !isOpen && frames == old(frames)
    {
      isOpen := false;
    }
  }

  lemma WrittenMore<E>(frames: seq<Frame<E>>, frame: Frame<E>, stringify: E -> string)
    ensures Written(frames + [frame], stringify) == Written(frames, stringify) + Line(frame, stringify) + "\n\n"
  {
    assert (frames + [frame])[..|frames|] == frames;
  }
}
