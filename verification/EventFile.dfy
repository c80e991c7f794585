/** The bytes of the events file and how they are read back (load in
    internal/event/log.go). JSON itself is a parameter: all that is asked of it
    is that a document is one line, reads back as itself, and is not a document
    when cut short. */
module EventFile {
  import opened Wrappers
  import opened Events
  import opened EventLog
  import opened EventLogProofs

  datatype Codec = Codec(encode: Event -> string, decode: string -> Option<Event>)

  predicate IsSpace(c: char) {
    c == ' ' || c == '\t' || c == '\n' || c == '\r'
  }

  predicate Blank(line: string) {
    forall i :: 0 <= i < |line| ==> IsSpace(line[i])
  }

  ghost predicate Faithful(c: Codec, e: Event) {
    var doc := c.encode(e);
    && '\n' !in doc && doc != "" && !IsSpace(doc[0])
    && c.decode(doc) == Some(e)
    && forall k :: 0 <= k < |doc| ==> c.decode(doc[..k]) == None
  }

  ghost predicate Lawful(c: Codec) {
    forall e :: Faithful(c, e)
  }

  /** Where the line starting at from ends: its newline, or the end of the data. */
  function LineEnd(data: string, from: nat): (end: nat)
    requires from <= |data|
    ensures from <= end <= |data|
    ensures '\n' !in data[from..end]
    ensures end < |data| ==> data[end] == '\n'
    decreases |data| - from
  {
    if from < |data| && data[from] != '\n' then LineEnd(data, from + 1) else from
  }

  /** What one line adds: nothing if it is blank or cannot be read. */
  function LineEvents(c: Codec, line: string): seq<Event> {
    if Blank(line) then []
    else match c.decode(line)
         case None => []
         case Some(e) => [e]
  }

  /** Where the line after the one at from starts. */
  function NextLineAt(data: string, from: nat): (next: nat)
    requires from < |data|
    ensures from < next <= |data|
  {
    var end := LineEnd(data, from);
    if end < |data| then end + 1 else end
  }

  /** The events of the lines from position from on. */
  function LoadFrom(c: Codec, data: string, from: nat): seq<Event>
    requires from <= |data|
    decreases |data| - from
  {
    if from == |data| then []
    else LineEvents(c, data[from..LineEnd(data, from)]) + LoadFrom(c, data, NextLineAt(data, from))
  }

  lemma LoadStep(c: Codec, data: string, from: nat)
    requires from < |data|
    ensures LoadFrom(c, data, from) ==
            LineEvents(c, data[from..LineEnd(data, from)]) + LoadFrom(c, data, NextLineAt(data, from))
  {
    hide LineEnd, LineEvents;
  }

  lemma LoadEnd(c: Codec, data: string)
    ensures LoadFrom(c, data, |data|) == []
  {
  }

  method Load(c: Codec, data: string) returns (events: seq<Event>)
    ensures events == LoadFrom(c, data, 0)
  {
    hide Blank, LineEnd, LoadFrom;
    events := [];
    var pos := 0;
    while pos < |data|
      invariant pos <= |data|
      invariant events + LoadFrom(c, data, pos) == LoadFrom(c, data, 0)
    {
      ghost var before := events;
      var line := data[pos..LineEnd(data, pos)];
      if !Blank(line) {
        match c.decode(line) {
          case None =>
          case Some(e) => events := events + [e];
        }
      }
      LoadStep(c, data, pos);
      assert events == before + LineEvents(c, line);
      pos := NextLineAt(data, pos);
    }
    LoadEnd(c, data);
  }

  function LineOf(c: Codec, x: Entry): string {
    c.encode(x.event) + "\n"
  }

  function Render(c: Codec, lines: seq<Entry>): string {
    if lines == [] then "" else Render(c, lines[..|lines| - 1]) + LineOf(c, lines[|lines| - 1])
  }

  /** The bytes in the file: whole lines, then what a cut write left. */
  function Bytes(c: Codec, disk: Disk): string {
    Render(c, disk.lines) + match disk.tail
                            case Clean => ""
                            case Cut(x, n) => if n < |LineOf(c, x)| then LineOf(c, x)[..n] else LineOf(c, x)
  }

  /** The entries a later load finds: a cut line counts once its document is whole. */
  function Recovered(c: Codec, disk: Disk): seq<Entry> {
    match disk.tail
    case Clean => disk.lines
    case Cut(x, n) => if n >= |c.encode(x.event)| then disk.lines + [x] else disk.lines
  }

  // ---------------------------------------------------------------- Proofs

  lemma {:induction false} LineEndIs(data: string, from: nat, end: nat)
    requires from <= end <= |data| && '\n' !in data[from..end] && (end < |data| ==> data[end] == '\n')
    ensures LineEnd(data, from) == end
    decreases end - from
  {
    if from < end {
      assert data[from] == data[from..end][0];
      assert data[from + 1..end] == data[from..end][1..];
      LineEndIs(data, from + 1, end);
    }
  }

  lemma LineEndShift(front: string, data: string, from: nat)
    requires from <= |data|
    ensures LineEnd(front + data, |front| + from) == |front| + LineEnd(data, from)
    ensures (front + data)[|front| + from..|front| + LineEnd(data, from)] == data[from..LineEnd(data, from)]
  {
    var end := LineEnd(data, from);
    assert (front + data)[|front| + from..|front| + end] == data[from..end];
    LineEndIs(front + data, |front| + from, |front| + end);
  }

  /** Reading starts afresh after a newline, so a prefix of lines can be cut off. */
  lemma {:induction false} LoadShift(c: Codec, front: string, data: string, from: nat)
    requires from <= |data|
    ensures LoadFrom(c, front + data, |front| + from) == LoadFrom(c, data, from)
    decreases |data| - from
  {
    hide LineEnd, LineEvents, LoadFrom;
    if from < |data| {
      LineEndShift(front, data, from);
      LoadStep(c, data, from);
      LoadStep(c, front + data, |front| + from);
      LoadShift(c, front, data, NextLineAt(data, from));
    } else {
      LoadEnd(c, data);
      LoadEnd(c, front + data);
    }
  }

  /** The line holds more than blanks, and reads as this event. */
  ghost predicate ReadsAs(c: Codec, line: string, e: Event) {
    && (exists i :: 0 <= i < |line| && line[i] !in {' ', '\t', '\n', '\r'})
    && c.decode(line) == Some(e)
  }

  /** Whatever a line is, it loads as the event it holds, or else as nothing, and what
      comes after it is read as it would be alone. */
  lemma LoadAnyLine(c: Codec, line: string, rest: string, e: Event)
    requires '\n' !in line
    ensures ReadsAs(c, line, e) ==>
              && LoadFrom(c, line, 0) == [e]
              && LoadFrom(c, line + "\n" + rest, 0) == [e] + LoadFrom(c, rest, 0)
    ensures (forall x :: !ReadsAs(c, line, x)) ==>
              && LoadFrom(c, line, 0) == []
              && LoadFrom(c, line + "\n" + rest, 0) == LoadFrom(c, rest, 0)
  {
    hide LineEnd, LineEvents, LoadFrom, ReadsAs;
    LineHolds(c, line, e);
    var data := line + "\n" + rest;
    assert data[0..|line|] == line;
    LineEndIs(data, 0, |line|);
    LoadStep(c, data, 0);
    assert data == (line + "\n") + rest;
    LoadShift(c, line + "\n", rest, 0);
    if line == "" {
      NothingHolds(c, e);
      LoadEnd(c, line);
    } else {
      assert line[0..|line|] == line;
      LineEndIs(line, 0, |line|);
      LoadStep(c, line, 0);
      LoadEnd(c, line);
    }
  }

  lemma NothingHolds(c: Codec, e: Event)
    ensures !ReadsAs(c, "", e)
  {
  }

  lemma LineHolds(c: Codec, line: string, e: Event)
    ensures ReadsAs(c, line, e) ==> LineEvents(c, line) == [e]
    ensures (forall x :: !ReadsAs(c, line, x)) ==> LineEvents(c, line) == []
  {
    if LineEvents(c, line) != [] {
      assert ReadsAs(c, line, c.decode(line).value);
    }
  }

  /** The line cut after n bytes, read on its own. */
  lemma LoadCut(c: Codec, x: Entry, n: nat)
    requires Lawful(c) && n <= |LineOf(c, x)|
    ensures LoadFrom(c, LineOf(c, x)[..n], 0) == if n >= |c.encode(x.event)| then [x.event] else []
  {
    var doc, data := c.encode(x.event), LineOf(c, x)[..n];
    assert Faithful(c, x.event);
    if n > |doc| {
      assert data == doc + "\n" && data[0..|doc|] == doc;
      LineEndIs(data, 0, |doc|);
      assert !Blank(doc) by { assert !IsSpace(doc[0]); }
    } else if n > 0 {
      assert data == doc[..n] && data[0..n] == data && doc[..|doc|] == doc;
      LineEndIs(data, 0, n);
      assert !Blank(data) by { assert !IsSpace(data[0]); }
    }
  }

  lemma {:induction false} LoadLines(c: Codec, lines: seq<Entry>, rest: string)
    requires Lawful(c)
    ensures LoadFrom(c, Render(c, lines) + rest, 0) == Values(lines) + LoadFrom(c, rest, 0)
    decreases |lines|
  {
    hide LoadFrom, Lawful;
    if lines == [] {
      assert Render(c, lines) + rest == rest;
      assert Values(lines) == [];
    } else {
      var front, x := lines[..|lines| - 1], lines[|lines| - 1];
      assert Render(c, lines) + rest == Render(c, front) + (LineOf(c, x) + rest);
      LoadLines(c, front, LineOf(c, x) + rest);
      FirstLine(c, x, rest);
      assert Values(lines) == Values(front) + [x.event];
    }
  }

  lemma FirstLine(c: Codec, x: Entry, rest: string)
    requires Lawful(c)
    ensures LoadFrom(c, LineOf(c, x) + rest, 0) == [x.event] + LoadFrom(c, rest, 0)
  {
    var doc, data := c.encode(x.event), LineOf(c, x) + rest;
    assert Faithful(c, x.event);
    assert data[0..|doc|] == doc;
    LineEndIs(data, 0, |doc|);
    assert !Blank(doc) by { assert !IsSpace(doc[0]); }
    LoadShift(c, LineOf(c, x), rest, 0);
  }

  /** Whatever a write left behind, load finds the whole lines, in order, and at
      most the one event whose document was complete. */
  lemma LoadFindsLines(c: Codec, disk: Disk)
    requires Lawful(c)
    ensures LoadFrom(c, Bytes(c, disk), 0) == Values(Recovered(c, disk))
  {
    hide LoadFrom, Lawful, Render;
    match disk.tail
    case Clean =>
      LoadLines(c, disk.lines, "");
      LoadEnd(c, "");
      assert Bytes(c, disk) == Render(c, disk.lines) + "";
    case Cut(x, n) =>
      var k := if n < |LineOf(c, x)| then n else |LineOf(c, x)|;
      LoadLines(c, disk.lines, LineOf(c, x)[..k]);
      LoadCut(c, x, k);
      assert Bytes(c, disk) == Render(c, disk.lines) + LineOf(c, x)[..k];
      assert Values(disk.lines + [x]) == Values(disk.lines) + [x.event];
  }

  /** What opening the log after a crash at any point loads: events of the log,
      in the order they were recorded and none twice. */
  lemma CrashLoadsOrderedEvents(c: Codec, s: State)
    requires Lawful(c) && Reachable(s)
    ensures LoadFrom(c, Bytes(c, s.file.disk), 0) == Values(Recovered(c, s.file.disk))
    ensures Ordered(Recovered(c, s.file.disk)) && AllGenuine(Recovered(c, s.file.disk), s.log.all, s.log.recorded)
    ensures s.file.disk.lines <= Recovered(c, s.file.disk)
  {
    hide Lawful, Reachable, LoadFrom, Bytes;
    LoadFindsLines(c, s.file.disk);
    FileIsWholeLinesInOrder(s);
  }

  /** A clean close and a reopen, through the bytes: the kept list comes back. */
  lemma CloseThenOpenRestores(c: Codec, s: State, now: int)
    requires Lawful(c) && Reachable(s)
    requires s.stage == Stopped(false) && !s.log.recordedAfterClose && s.log.limits.maxAge == 0
    ensures s.log.limits.Valid()
    ensures Values(Open(s.log.limits, LoadFrom(c, Bytes(c, s.file.disk), 0), now).log.events) == Values(s.log.events)
  {
    CleanCloseIsDurable(s);
    LoadFindsLines(c, s.file.disk);
    ReopenRestores(s, now);
  }

  /** What a crash can lose. While the file is open, every event accepted and still
      kept is loaded afterwards, unless it waited in the queue, was in the writer's
      hand, or was dropped since the last compaction. A crash in the middle of a write,
      after so many bytes of its line, loses no more. */
  lemma CrashLosesLittle(c: Codec, s: State, x: Entry, bytes: nat)
    requires Lawful(c) && Reachable(s) && Enabled(s, Crash) && (s.file.open || s.stage.Rewritten?)
    requires x in s.log.events && x.number <= s.log.accepted
    ensures || x in Recovered(c, s.file.disk) || x in s.log.queue || s.stage == Took(x)
            || s.file.compactedThrough < x.number <= s.log.droppedThrough
    ensures Step(s, Crash).file.disk == s.file.disk
    ensures MustWrite(s) ==>
              var cut := Step(s, WriteFail(bytes));
              && Enabled(cut, Crash) && Step(cut, Crash).file.disk == cut.file.disk
              && LoadFrom(c, Bytes(c, cut.file.disk), 0) == Values(Recovered(c, cut.file.disk))
              && Recovered(c, s.file.disk) <= Recovered(c, cut.file.disk)
    ensures LoadFrom(c, Bytes(c, s.file.disk), 0) == Values(Recovered(c, s.file.disk))
  {
    hide Lawful, LoadFrom, Bytes, Reachable;
    LoadFindsLines(c, s.file.disk);
    CrashLoadsOrderedEvents(c, s);
    ReachableKeeps(s);
    IsDue(s, x);
    if MustWrite(s) {
      OpenIsClean(s);
      LoadFindsLines(c, AfterWriteFail(s, bytes).file.disk);
    }
  }

  lemma OpenIsClean(s: State)
    requires Inv(s) && s.file.open
    ensures s.file.disk.tail.Clean?
  {
  }

  lemma IsDue(s: State, x: Entry)
    requires Inv(s) && (s.file.open || s.stage.Rewritten?) && x in s.log.events && x.number <= s.log.accepted
    ensures || x in s.file.disk.lines || x in s.log.queue || s.stage == Took(x)
            || s.file.compactedThrough < x.number <= s.log.droppedThrough
  {
  }
}
