/** What every run of the event log keeps, and what follows at the points
    callers care about. The parts of the invariant are predicates of just the
    fields they speak of, so a step that leaves those fields keeps them. */
module EventLogProofs {
  import opened Wrappers
  import opened Events
  import opened EventLog

  // ---------------------------------------------------------------- Vocabulary

  /** Record numbers strictly increase: no duplicate and no reordering. */
  predicate Ordered(entries: seq<Entry>) {
    forall i, j :: 0 <= i < j < |entries| ==> entries[i].number < entries[j].number
  }

  /** x is what the history holds under its number. */
  predicate Genuine(x: Entry, all: seq<Entry>, recorded: nat) {
    var i := x.number - 1 + |all| - recorded;
    0 <= i < |all| && all[i] == x
  }

  predicate AllGenuine(entries: seq<Entry>, all: seq<Entry>, recorded: nat) {
    forall x :: x in entries ==> Genuine(x, all, recorded)
  }

  /** Every entry numbered at most bound among entries is in lines. */
  predicate HeldThrough(entries: seq<Entry>, bound: int, lines: seq<Entry>) {
    forall x :: x in entries && x.number <= bound ==> x in lines
  }

  // ---------------------------------------------------------------- Invariants

  /** The history is numbered without gaps, up to the last recorded. */
  predicate Numbered(all: seq<Entry>, recorded: nat) {
    && recorded <= |all|
    && forall i :: 0 <= i < |all| ==> all[i].number == i + 1 + recorded - |all|
  }

  /** What memory keeps is the end of the history, within the limits. */
  predicate Kept(limits: Limits, events: seq<Entry>, all: seq<Entry>) {
    && |events| <= |all| && |events| <= limits.maxCount
    && events == all[|all| - |events|..]
    && (limits.maxAge == 0 ==> |events| == limits.maxCount || |events| == |all|)
  }

  /** The queue is bounded and in record order, and holds accepted events only. */
  predicate Queued(limits: Limits, queue: seq<Entry>, all: seq<Entry>, recorded: nat, accepted: nat) {
    && |queue| <= limits.buffer
    && Ordered(queue) && AllGenuine(queue, all, recorded)
    && forall x :: x in queue ==> 0 < x.number <= accepted
  }

  predicate TookNext(p: Entry, queue: seq<Entry>, all: seq<Entry>, recorded: nat, accepted: nat) {
    && Genuine(p, all, recorded) && 0 < p.number <= accepted
    && forall x :: x in queue ==> p.number < x.number
  }

  predicate Counters(s: State) {
    && s.log.limits.Valid()
    && s.log.droppedThrough <= s.log.accepted <= s.log.recorded && s.file.compactedThrough <= s.log.recorded
    && (!s.log.closed ==> !s.log.recordedAfterClose)
    && (!s.log.recordedAfterClose ==> s.log.accepted == s.log.recorded)
  }

  /** The file is whole lines in record order and at most one cut line, of a
      later event. */
  predicate FileShape(disk: Disk, all: seq<Entry>, recorded: nat) {
    && Ordered(disk.lines) && AllGenuine(disk.lines, all, recorded)
    && (disk.tail.Cut? ==>
          Ordered(disk.lines + [disk.tail.entry]) && Genuine(disk.tail.entry, all, recorded))
  }

  /** Whatever the file has past its last compaction comes before p. */
  predicate Precede(lines: seq<Entry>, p: Entry, compactedThrough: nat) {
    forall x :: x in lines ==> x.number <= compactedThrough || x.number < p.number
  }

  predicate PrecedeAll(lines: seq<Entry>, queue: seq<Entry>, compactedThrough: nat) {
    forall p :: p in queue ==> Precede(lines, p, compactedThrough)
  }

  /** Of the events kept, the file holds those up to its last compaction; of the
      later ones accepted, each is in the file, due to be written, or dropped. */
  predicate Covered(events: seq<Entry>, lines: seq<Entry>, due: set<Entry>,
                    compactedThrough: nat, accepted: nat, droppedThrough: nat) {
    && HeldThrough(events, compactedThrough, lines)
    && forall x :: x in events && compactedThrough < x.number <= accepted ==>
         x in lines || x in due || x.number <= droppedThrough
  }

  ghost function Due(s: State): set<Entry> {
    (set x | x in s.log.queue) + (if s.stage.Took? then {s.stage.p} else {})
  }

  /** A compaction's copy: it has every event kept up to the last recorded when
      it was taken, and what was recorded since is in the queue or was dropped. */
  predicate CopyShape(limits: Limits, copy: seq<Entry>, last: nat, all: seq<Entry>, recorded: nat) {
    && Ordered(copy) && AllGenuine(copy, all, recorded)
    && |copy| <= limits.maxCount && last <= recorded
    && forall x :: x in copy ==> x.number <= last
  }

  /** Nothing keeps the writer from compacting: no compaction has failed, or the last
      one succeeded and the clock has only gone forward. */
  predicate OnTrack(past: Past) {
    past.faultless || (past.compacted && past.steady)
  }

  /** So long the writer does not go back to waiting with work left undone. */
  predicate Attentive(s: State) {
    && (s.past.faultless ==> s.past.compacted && s.file.retryAt == None)
    && (s.file.open ==> s.file.disk.tail.Clean? && s.file.written == |s.file.disk.lines|)
    && (s.stage.Waiting? && OnTrack(s.past) ==>
          && s.file.open && s.file.written <= MaxWritten(s.log.limits)
          && (s.log.droppedThrough > s.file.compactedThrough ==> s.log.queue != []))
    && ((s.stage.Waiting? || s.stage.Took? || s.stage.Handled? || s.stage.SawQueue?) && OnTrack(s.past) ==>
          !TooSoon(s.file, s.past.clock))
    && (s.stage.SawQueue? && !s.stage.empty ==> s.log.queue != [])
    && ((s.stage.AboutToCopy? || s.stage.Copied? || s.stage.Rewritten?) && !s.stage.closing ==>
          s.stage.now == s.past.clock && !TooSoon(s.file, s.past.clock))
    && (s.stage.Copied? && s.log.droppedThrough > s.stage.last ==> s.log.queue != [])
    && (s.stage.Rewritten? ==>
          && !s.file.open && s.file.disk.tail.Clean? && s.stage.count == |s.file.disk.lines| <= s.log.limits.maxCount
          && (s.log.droppedThrough > s.file.compactedThrough ==> s.log.queue != []))
  }

  /** Once the queue is closed and drained, what is left is the last check, the
      last compaction and closing the file. */
  predicate Ending(s: State) {
    && ((s.stage.AboutToCopy? || s.stage.Copied? || s.stage.Rewritten?) && s.stage.closing ==>
          s.log.closed && s.log.queue == [])
    && (s.stage.Drained? || s.stage.Closing? || s.stage.Stopped? ==> s.log.closed && s.log.queue == [])
    && (s.stage.Closing? && !s.stage.failed ==> s.file.open && s.log.droppedThrough <= s.file.compactedThrough)
    && (s.stage.Stopped? && !s.stage.failed ==> s.file.disk.tail.Clean?)
  }

  predicate Shapes(s: State) {
    && Numbered(s.log.all, s.log.recorded)
    && Kept(s.log.limits, s.log.events, s.log.all)
    && Queued(s.log.limits, s.log.queue, s.log.all, s.log.recorded, s.log.accepted)
    && (s.stage.Took? ==> TookNext(s.stage.p, s.log.queue, s.log.all, s.log.recorded, s.log.accepted))
    && FileShape(s.file.disk, s.log.all, s.log.recorded)
    && (s.stage.Copied? ==> CopyShape(s.log.limits, s.stage.copy, s.stage.last, s.log.all, s.log.recorded))
  }

  ghost predicate Links(s: State) {
    && PrecedeAll(s.file.disk.lines, s.log.queue, s.file.compactedThrough)
    && (s.stage.Took? ==> Precede(s.file.disk.lines, s.stage.p, s.file.compactedThrough))
    && (s.file.open || s.stage.Rewritten? ==>
          Covered(s.log.events, s.file.disk.lines, Due(s), s.file.compactedThrough, s.log.accepted,
                  s.log.droppedThrough))
    && (s.stage.Copied? ==>
          Covered(s.log.events, s.stage.copy, Due(s), s.stage.last, s.log.accepted, s.log.droppedThrough))
    && (s.stage.Stopped? && !s.stage.failed ==> HeldThrough(s.log.events, s.log.accepted, s.file.disk.lines))
  }

  ghost predicate Inv(s: State) {
    Counters(s) && Attentive(s) && Ending(s) && Shapes(s) && Links(s)
  }

  // ---------------------------------------------------------------- Record

  lemma GrowKeepsGenuine(entries: seq<Entry>, all: seq<Entry>, recorded: nat, p: Entry)
    requires AllGenuine(entries, all, recorded)
    ensures AllGenuine(entries, all + [p], recorded + 1)
  {
  }

  lemma AppendKeepsKept(limits: Limits, events: seq<Entry>, all: seq<Entry>, p: Entry, now: int)
    requires Kept(limits, events, all)
    ensures Kept(limits, Trim(limits, events + [p], now), all + [p])
  {
    var kept := Trim(limits, events + [p], now);
    assert events + [p] == (all + [p])[|all| - |events|..];
    assert kept == (events + [p])[|events| + 1 - |kept|..];
    assert kept == (all + [p])[|all| + 1 - |kept|..];
  }

  lemma AppendKeepsQueued(limits: Limits, queue: seq<Entry>, all: seq<Entry>, recorded: nat, accepted: nat, p: Entry)
    requires Queued(limits, queue, all, recorded, accepted)
    requires accepted <= recorded && p.number == recorded + 1 && Numbered(all, recorded)
    ensures Queued(limits, queue, all + [p], recorded + 1, accepted)
    ensures Queued(limits, queue, all + [p], recorded + 1, recorded + 1)
    ensures |queue| < limits.buffer ==> Queued(limits, queue + [p], all + [p], recorded + 1, recorded + 1)
  {
    GrowKeepsGenuine(queue, all, recorded, p);
    assert (all + [p])[|all|] == p;
  }

  lemma AppendKeepsNumbered(all: seq<Entry>, recorded: nat, p: Entry)
    requires Numbered(all, recorded) && p.number == recorded + 1
    ensures Numbered(all + [p], recorded + 1)
  {
  }

  lemma AppendKeepsFile(disk: Disk, all: seq<Entry>, recorded: nat, p: Entry)
    requires FileShape(disk, all, recorded)
    ensures FileShape(disk, all + [p], recorded + 1)
  {
    GrowKeepsGenuine(disk.lines, all, recorded, p);
  }

  lemma AppendKeepsTook(q: Entry, queue: seq<Entry>, all: seq<Entry>, recorded: nat, accepted: nat, p: Entry)
    requires TookNext(q, queue, all, recorded, accepted) && accepted <= recorded && p.number == recorded + 1
    ensures TookNext(q, queue, all + [p], recorded + 1, accepted)
    ensures TookNext(q, queue, all + [p], recorded + 1, recorded + 1)
    ensures TookNext(q, queue + [p], all + [p], recorded + 1, recorded + 1)
  {
  }

  lemma AppendKeepsCopy(limits: Limits, copy: seq<Entry>, last: nat, all: seq<Entry>, recorded: nat, p: Entry)
    requires CopyShape(limits, copy, last, all, recorded)
    ensures CopyShape(limits, copy, last, all + [p], recorded + 1)
  {
    GrowKeepsGenuine(copy, all, recorded, p);
  }

  /** What Record changes of what the shapes speak of. */
  ghost predicate Grown(s: State, t: State, p: Entry, now: int) {
    && p.number == s.log.recorded + 1
    && t.log.limits == s.log.limits && t.stage == s.stage && t.file.disk == s.file.disk
    && t.log.all == s.log.all + [p] && t.log.recorded == s.log.recorded + 1
    && t.log.events == Trim(s.log.limits, s.log.events + [p], now)
    && (|| (t.log.queue == s.log.queue && (t.log.accepted == s.log.accepted || t.log.accepted == t.log.recorded))
        || (&& |s.log.queue| < s.log.limits.buffer && t.log.queue == s.log.queue + [p]
            && t.log.accepted == t.log.recorded))
  }

  lemma RecordAppends(s: State, e: Event, now: int)
    ensures Grown(s, AfterRecord(s, e, now), Entry(s.log.recorded + 1, e), now)
  {
  }

  lemma GrownKeepsShapes(s: State, t: State, p: Entry, now: int)
    requires Counters(s) && Shapes(s) && Grown(s, t, p, now)
    ensures Shapes(t)
  {
    hide Numbered, Kept, Queued, FileShape, CopyShape, TookNext, Trim;
    AppendKeepsNumbered(s.log.all, s.log.recorded, p);
    AppendKeepsKept(s.log.limits, s.log.events, s.log.all, p, now);
    AppendKeepsQueued(s.log.limits, s.log.queue, s.log.all, s.log.recorded, s.log.accepted, p);
    AppendKeepsFile(s.file.disk, s.log.all, s.log.recorded, p);
    if s.stage.Took? {
      AppendKeepsTook(s.stage.p, s.log.queue, s.log.all, s.log.recorded, s.log.accepted, p);
    }
    if s.stage.Copied? {
      AppendKeepsCopy(s.log.limits, s.stage.copy, s.stage.last, s.log.all, s.log.recorded, p);
    }
  }

  lemma RecordKeepsShapes(s: State, e: Event, now: int)
    requires Counters(s) && Shapes(s)
    ensures Shapes(AfterRecord(s, e, now))
  {
    RecordAppends(s, e, now);
    hide Counters, Shapes, Grown, AfterRecord;
    GrownKeepsShapes(s, AfterRecord(s, e, now), Entry(s.log.recorded + 1, e), now);
  }

  lemma KeptNumbers(limits: Limits, events: seq<Entry>, all: seq<Entry>, recorded: nat)
    requires Numbered(all, recorded) && Kept(limits, events, all)
    ensures forall x :: x in events ==> x.number <= recorded
  {
  }

  /** The kept list only loses old entries and gains the one numbered next, and
      that one is queued, dropped, or past what was accepted. */
  lemma AppendKeepsCovered(events: seq<Entry>, events': seq<Entry>, lines: seq<Entry>,
                           due: set<Entry>, due': set<Entry>,
                           bound: nat, accepted: nat, accepted': nat, dropped: nat, dropped': nat, p: Entry)
    requires Covered(events, lines, due, bound, accepted, dropped)
    requires bound < p.number && due <= due' && dropped <= dropped'
    requires forall x :: x in events' ==> x == p || x in events
    requires accepted' == accepted || (p in due' || p.number <= dropped')
    requires accepted' == accepted || forall x :: x in events ==> x.number <= accepted
    requires accepted < p.number
    ensures Covered(events', lines, due', bound, accepted', dropped')
  {
  }

  lemma TrimForgets(limits: Limits, events: seq<Entry>, p: Entry, now: int)
    ensures forall x :: x in Trim(limits, events + [p], now) ==> x == p || x in events
  {
  }

  lemma RecordKeepsDue(s: State, e: Event, now: int)
    ensures var t := AfterRecord(s, e, now);
            var p := Entry(s.log.recorded + 1, e);
            && Due(s) <= Due(t)
            && (s.log.closed || p in Due(t) || t.log.droppedThrough == p.number)
  {
    hide Trim;
    var t := AfterRecord(s, e, now);
    assert t.log.queue == s.log.queue || t.log.queue == s.log.queue + [Entry(s.log.recorded + 1, e)];
    assert |t.log.queue| == |s.log.queue| + 1 ==> t.log.queue[|s.log.queue|] == Entry(s.log.recorded + 1, e);
  }

  lemma RecordKeepsCovered(s: State, e: Event, now: int, lines: seq<Entry>, bound: nat)
    requires Counters(s) && bound <= s.log.recorded
    requires Numbered(s.log.all, s.log.recorded) && Kept(s.log.limits, s.log.events, s.log.all)
    requires Covered(s.log.events, lines, Due(s), bound, s.log.accepted, s.log.droppedThrough)
    ensures var t := AfterRecord(s, e, now);
            Covered(t.log.events, lines, Due(t), bound, t.log.accepted, t.log.droppedThrough)
  {
    var t := AfterRecord(s, e, now);
    var p := Entry(s.log.recorded + 1, e);
    KeptNumbers(s.log.limits, s.log.events, s.log.all, s.log.recorded);
    TrimForgets(s.log.limits, s.log.events, p, now);
    RecordKeepsDue(s, e, now);
    hide Covered, Numbered, Kept, Trim, Due;
    AppendKeepsCovered(s.log.events, t.log.events, lines, Due(s), Due(t), bound, s.log.accepted, t.log.accepted,
                       s.log.droppedThrough, t.log.droppedThrough, p);
  }

  lemma AppendKeepsPrecede(lines: seq<Entry>, queue: seq<Entry>, bound: nat, all: seq<Entry>, recorded: nat, p: Entry)
    requires PrecedeAll(lines, queue, bound) && AllGenuine(lines, all, recorded) && Numbered(all, recorded)
    requires p.number == recorded + 1
    ensures PrecedeAll(lines, queue + [p], bound)
  {
    assert Precede(lines, p, bound);
  }

  lemma RecordKeepsHeld(s: State, e: Event, now: int, lines: seq<Entry>)
    requires HeldThrough(s.log.events, s.log.accepted, lines) && s.log.closed && s.log.accepted <= s.log.recorded
    ensures HeldThrough(AfterRecord(s, e, now).log.events, AfterRecord(s, e, now).log.accepted, lines)
  {
    TrimForgets(s.log.limits, s.log.events, Entry(s.log.recorded + 1, e), now);
    hide Trim;
  }

  lemma RecordKeepsLinks(s: State, e: Event, now: int)
    requires Counters(s) && Ending(s) && Shapes(s) && Links(s)
    ensures Links(AfterRecord(s, e, now))
  {
    hide Numbered, Kept, Queued, CopyShape, TookNext, Covered, Precede, PrecedeAll, HeldThrough, Due, Trim;
    var p := Entry(s.log.recorded + 1, e);
    AppendKeepsPrecede(s.file.disk.lines, s.log.queue, s.file.compactedThrough, s.log.all, s.log.recorded, p);
    if s.file.open || s.stage.Rewritten? {
      RecordKeepsCovered(s, e, now, s.file.disk.lines, s.file.compactedThrough);
    }
    if s.stage.Copied? {
      assert s.stage.last <= s.log.recorded by { CopyIsPast(s); }
      RecordKeepsCovered(s, e, now, s.stage.copy, s.stage.last);
    }
    if s.stage.Stopped? && !s.stage.failed {
      RecordKeepsHeld(s, e, now, s.file.disk.lines);
    }
  }

  lemma CopyIsPast(s: State)
    requires Shapes(s) && s.stage.Copied?
    ensures s.stage.last <= s.log.recorded
  {
  }

  lemma RecordKeeps(s: State, e: Event, now: int)
    requires Inv(s)
    ensures Inv(AfterRecord(s, e, now))
  {
    hide Shapes, Links;
    RecordKeepsShapes(s, e, now);
    RecordKeepsLinks(s, e, now);
  }

  // ---------------------------------------------------------------- The writer

  lemma HeadOfQueue(s: State)
    requires Shapes(s) && PrecedeAll(s.file.disk.lines, s.log.queue, s.file.compactedThrough) && s.log.queue != []
    ensures Queued(s.log.limits, s.log.queue[1..], s.log.all, s.log.recorded, s.log.accepted)
    ensures TookNext(s.log.queue[0], s.log.queue[1..], s.log.all, s.log.recorded, s.log.accepted)
    ensures PrecedeAll(s.file.disk.lines, s.log.queue[1..], s.file.compactedThrough)
    ensures Precede(s.file.disk.lines, s.log.queue[0], s.file.compactedThrough)
  {
    hide Numbered, Kept, FileShape, Precede;
    assert s.log.queue[0] in s.log.queue && forall x :: x in s.log.queue[1..] ==> x in s.log.queue;
  }

  lemma TakeKeepsDue(s: State)
    requires Enabled(s, Take)
    ensures Due(Step(s, Take)) == Due(s)
  {
    assert s.log.queue == [s.log.queue[0]] + s.log.queue[1..];
  }

  lemma TakeKeeps(s: State)
    requires Inv(s) && Enabled(s, Take)
    ensures Inv(Step(s, Take))
  {
    hide Numbered, Kept, Queued, FileShape, Covered, PrecedeAll, Precede, TookNext, CopyShape, Due;
    HeadOfQueue(s);
    TakeKeepsDue(s);
  }

  /** A line past the last compaction goes after every line the file has. */
  lemma AppendLine(disk: Disk, all: seq<Entry>, recorded: nat, p: Entry, bound: nat)
    requires FileShape(disk, all, recorded) && Precede(disk.lines, p, bound)
    requires bound < p.number && Genuine(p, all, recorded)
    ensures Ordered(disk.lines + [p]) && AllGenuine(disk.lines + [p], all, recorded)
  {
    assert forall i :: 0 <= i < |disk.lines| ==> disk.lines[i] in disk.lines;
  }

  lemma WriteOkKeeps(s: State)
    requires Inv(s) && Enabled(s, WriteOk)
    ensures Inv(Step(s, WriteOk))
  {
    var t := Step(s, WriteOk);
    var p := s.stage.p;
    AppendLine(s.file.disk, s.log.all, s.log.recorded, p, s.file.compactedThrough);
    hide Numbered, Kept, Queued, FileShape;
    assert Due(s) <= Due(t) + {p};
  }

  lemma WriteFailKeeps(s: State, bytes: nat)
    requires Inv(s) && Enabled(s, WriteFail(bytes))
    ensures Inv(Step(s, WriteFail(bytes)))
  {
    AppendLine(s.file.disk, s.log.all, s.log.recorded, s.stage.p, s.file.compactedThrough);
    hide Numbered, Kept, Queued, Covered;
  }

  lemma SkipKeeps(s: State)
    requires Inv(s) && Enabled(s, Skip)
    ensures Inv(Step(s, Skip))
  {
    hide Numbered, Kept, Queued, FileShape;
    assert Due(s) <= Due(Step(s, Skip)) + {s.stage.p};
  }

  lemma ReadQueueLenKeeps(s: State)
    requires Inv(s) && Enabled(s, ReadQueueLen)
    ensures Inv(Step(s, ReadQueueLen))
  {
    hide Numbered, Kept, Queued, FileShape, Covered;
  }

  predicate SameData(s: State, t: State) {
    && t.log.limits == s.log.limits && t.log.events == s.log.events
    && t.log.recorded == s.log.recorded && t.log.all == s.log.all
    && t.log.queue == s.log.queue && t.log.accepted == s.log.accepted && t.log.droppedThrough == s.log.droppedThrough
    && t.file.disk == s.file.disk && t.file.open == s.file.open && t.file.compactedThrough == s.file.compactedThrough
  }

  /** Moving between stages that hold nothing leaves what the data satisfies. */
  lemma StageMoveKeepsData(s: State, t: State)
    requires Shapes(s) && Links(s) && s.stage.SawQueue?
    requires SameData(s, t) && (t.stage.Waiting? || t.stage.AboutToCopy?)
    ensures Shapes(t) && Links(t)
  {
    hide Numbered, Kept, Queued, FileShape, Covered, PrecedeAll;
    assert Due(t) == Due(s);
  }

  lemma DecisionKeepsControl(s: State, now: int)
    requires Counters(s) && Attentive(s) && Ending(s) && s.stage.SawQueue?
    ensures var t := AfterDecision(s, now); Counters(t) && Attentive(t) && Ending(t)
  {
    hide MaxWritten;
    if !s.file.open || s.file.written > MaxWritten(s.log.limits) || CaughtUp(s) {
      if TooSoon(s.file, now) {
        assert !OnTrack(Timed(s.past, now));
      }
    }
  }

  lemma DecisionMoves(s: State, now: int)
    requires s.stage.SawQueue?
    ensures var t := AfterDecision(s, now);
            && SameData(s, t)
            && (t.stage.Waiting? || t.stage.AboutToCopy?)
  {
    hide MaxWritten, CaughtUp;
  }

  lemma DecisionKeeps(s: State, now: int)
    requires Inv(s) && s.stage.SawQueue?
    ensures Inv(AfterDecision(s, now))
  {
    hide Counters, Attentive, Ending, Shapes, Links, AfterDecision;
    DecisionMoves(s, now);
    DecisionKeepsControl(s, now);
    StageMoveKeepsData(s, AfterDecision(s, now));
  }

  lemma CopyKeeps(s: State)
    requires Inv(s) && Enabled(s, Copy)
    ensures Inv(Step(s, Copy))
  {
    KeptNumbers(s.log.limits, s.log.events, s.log.all, s.log.recorded);
    hide Queued, FileShape;
  }

  lemma ReplaceOkKeeps(s: State)
    requires Inv(s) && Enabled(s, ReplaceOk)
    ensures Inv(Step(s, ReplaceOk))
  {
    hide Numbered, Kept, Queued, Covered;
  }

  lemma ReopenOkKeeps(s: State)
    requires Inv(s) && Enabled(s, ReopenOk)
    ensures Inv(Step(s, ReopenOk))
  {
    hide Numbered, Kept, Queued, FileShape, Covered;
  }

  lemma FailedCompactionKeeps(s: State, a: Action)
    requires Inv(s) && Enabled(s, a) && (a.ReplaceFail? || a.ReopenFail?)
    ensures Inv(Step(s, a))
  {
    hide Numbered, Kept, Queued, FileShape, Covered, PrecedeAll, CopyShape;
  }

  lemma CloseLogKeeps(s: State)
    requires Inv(s) && Enabled(s, CloseLog)
    ensures Inv(Step(s, CloseLog))
  {
    hide Numbered, Kept, Queued, FileShape, Covered;
  }

  lemma FinalCheckKeeps(s: State, a: Action)
    requires Inv(s) && Enabled(s, a) && (a.Drain? || a.FinalCheck?)
    ensures Inv(Step(s, a))
  {
    hide Numbered, Kept, Queued, FileShape, Covered, PrecedeAll, CopyShape;
  }

  lemma CloseFileKeeps(s: State, ok: bool)
    requires Inv(s) && Enabled(s, CloseFile(ok))
    ensures Inv(Step(s, CloseFile(ok)))
  {
    hide Numbered, Kept, Queued, FileShape;
  }

  lemma CrashKeeps(s: State)
    requires Inv(s) && Enabled(s, Crash)
    ensures Inv(Step(s, Crash))
  {
    hide Numbered, Kept, Queued, FileShape;
  }

  // ---------------------------------------------------------------- Whole runs

  lemma OpenHistory(limits: Limits, loaded: seq<Event>, now: int)
    requires limits.Valid()
    ensures var kept := Trim(limits, NumberLoaded(loaded), now);
            Numbered(kept, 0) && Ordered(kept) && AllGenuine(kept, kept, 0)
  {
    hide Numbered, Ordered, AllGenuine, Trim;
    var kept := Trim(limits, NumberLoaded(loaded), now);
    TailIsNumbered(NumberLoaded(loaded), kept);
    NumberedIsGenuine(kept);
  }

  lemma TailIsNumbered(loaded: seq<Entry>, kept: seq<Entry>)
    requires forall i :: 0 <= i < |loaded| ==> loaded[i].number == i + 1 - |loaded|
    requires |kept| <= |loaded| && kept == loaded[|loaded| - |kept|..]
    ensures Numbered(kept, 0)
  {
  }

  lemma NumberedIsGenuine(kept: seq<Entry>)
    requires Numbered(kept, 0)
    ensures Ordered(kept) && AllGenuine(kept, kept, 0)
  {
  }

  lemma StartedShapes(limits: Limits, kept: seq<Entry>)
    requires limits.Valid() && |kept| <= limits.maxCount
    requires Numbered(kept, 0) && Ordered(kept) && AllGenuine(kept, kept, 0)
    ensures Shapes(Started(limits, kept))
  {
    hide Numbered, Ordered, AllGenuine;
    assert kept[0..] == kept;
    assert Ordered([]) && AllGenuine([], kept, 0) by { NothingYet(kept); }
  }

  lemma NothingYet(kept: seq<Entry>)
    ensures Ordered([]) && AllGenuine([], kept, 0)
  {
  }

  lemma StartedLinks(limits: Limits, kept: seq<Entry>)
    ensures Links(Started(limits, kept))
  {
    assert Due(Started(limits, kept)) == {};
  }

  lemma StartedEstablishes(limits: Limits, kept: seq<Entry>)
    requires limits.Valid() && |kept| <= limits.maxCount
    requires Numbered(kept, 0) && Ordered(kept) && AllGenuine(kept, kept, 0)
    ensures Inv(Started(limits, kept))
  {
    StartedShapes(limits, kept);
    StartedLinks(limits, kept);
    hide Numbered, Ordered, AllGenuine, Shapes, Links;
  }

  lemma OpenEstablishes(limits: Limits, loaded: seq<Event>, now: int)
    requires limits.Valid()
    ensures Inv(Open(limits, loaded, now))
  {
    hide Numbered, Ordered, AllGenuine, Trim, NumberLoaded, Started, Inv;
    OpenHistory(limits, loaded, now);
    StartedEstablishes(limits, Trim(limits, NumberLoaded(loaded), now));
  }

  lemma StepKeeps(s: State, a: Action)
    requires Inv(s) && Enabled(s, a)
    ensures Inv(Step(s, a))
  {
    hide Inv;
    match a
    case Record(e, stampedAt, trimmedAt) => RecordKeeps(s, Stamp(e, stampedAt), trimmedAt);
    case Take => TakeKeeps(s);
    case WriteOk => WriteOkKeeps(s);
    case WriteFail(bytes) => WriteFailKeeps(s, bytes);
    case Skip => SkipKeeps(s);
    case ReadQueueLen => ReadQueueLenKeeps(s);
    case ReadDropped(now) => DecisionKeeps(s, now);
    case Copy => CopyKeeps(s);
    case ReplaceOk => ReplaceOkKeeps(s);
    case ReplaceFail => FailedCompactionKeeps(s, a);
    case ReopenOk => ReopenOkKeeps(s);
    case ReopenFail => FailedCompactionKeeps(s, a);
    case CloseLog => CloseLogKeeps(s);
    case Drain => FinalCheckKeeps(s, a);
    case FinalCheck => FinalCheckKeeps(s, a);
    case CloseFile(ok) => CloseFileKeeps(s, ok);
    case Crash => CrashKeeps(s);
  }

  lemma {:induction false} RunKeeps(s: State, actions: seq<Action>, t: State)
    requires Inv(s) && Run(s, actions, t)
    ensures Inv(t)
    decreases |actions|
  {
    hide Inv, Step;
    if actions != [] {
      StepKeeps(s, actions[0]);
      RunKeeps(Step(s, actions[0]), actions[1..], t);
    }
  }

  ghost predicate Reachable(s: State) {
    exists limits: Limits, loaded: seq<Event>, now: int, actions: seq<Action> ::
      limits.Valid() && Run(Open(limits, loaded, now), actions, s)
  }

  lemma ReachableKeeps(s: State)
    requires Reachable(s)
    ensures Inv(s)
  {
    hide Inv, Open;
    var limits: Limits, loaded: seq<Event>, now: int, actions: seq<Action> :|
      limits.Valid() && Run(Open(limits, loaded, now), actions, s);
    OpenEstablishes(limits, loaded, now);
    RunKeeps(Open(limits, loaded, now), actions, s);
  }

  /** Every log can be closed cleanly: opened and closed at once, it is. */
  lemma CleanCloseHappens(limits: Limits, loaded: seq<Event>, now: int) returns (s: State)
    requires limits.Valid()
    ensures Reachable(s) && s.stage == Stopped(false) && s.log.limits == limits && !s.log.recordedAfterClose
  {
    var first := Open(limits, loaded, now);
    s := AfterCloseFile(AfterFinalCheck(AfterDrain(AfterClose(first))), true);
    hide Reachable;
    ClosesAtOnce(first, s);
    IsReachable(limits, loaded, now, [CloseLog] + ([Drain] + ([FinalCheck] + ([CloseFile(true)] + []))), s);
  }

  lemma ClosesAtOnce(first: State, s: State)
    requires first.stage.Waiting? && first.log.queue == [] && !first.log.closed
    requires first.file.open && first.log.droppedThrough <= first.file.compactedThrough
    requires s == AfterCloseFile(AfterFinalCheck(AfterDrain(AfterClose(first))), true)
    ensures Run(first, [CloseLog] + ([Drain] + ([FinalCheck] + ([CloseFile(true)] + []))), s)
  {
    hide Run;
    var closed := AfterClose(first);
    var drained := AfterDrain(closed);
    var checked := AfterFinalCheck(drained);
    RunNothing(s);
    RunThen(checked, CloseFile(true), [], s);
    RunThen(drained, FinalCheck, [CloseFile(true)] + [], s);
    RunThen(closed, Drain, [FinalCheck] + ([CloseFile(true)] + []), s);
    RunThen(first, CloseLog, [Drain] + ([FinalCheck] + ([CloseFile(true)] + [])), s);
  }

  lemma IsReachable(limits: Limits, loaded: seq<Event>, now: int, actions: seq<Action>, s: State)
    requires limits.Valid() && Run(Open(limits, loaded, now), actions, s)
    ensures Reachable(s)
  {
  }

  lemma RunNothing(s: State)
    ensures Run(s, [], s)
  {
  }

  lemma RunThen(s: State, a: Action, actions: seq<Action>, t: State)
    requires Enabled(s, a) && Run(Step(s, a), actions, t)
    ensures Run(s, [a] + actions, t)
  {
    hide Enabled, Step;
    assert ([a] + actions)[1..] == actions;
  }

  /** A run and one more step. */
  lemma {:induction false} RunStep(s: State, actions: seq<Action>, t: State, a: Action)
    requires Run(s, actions, t) && Enabled(t, a)
    ensures Run(s, actions + [a], Step(t, a))
    decreases |actions|
  {
    hide Enabled, Step;
    if actions == [] {
      RunNothing(Step(t, a));
      RunThen(t, a, [], Step(t, a));
      assert [] + [a] == [a] + [];
    } else {
      RunStep(Step(s, actions[0]), actions[1..], t, a);
      assert (actions + [a])[1..] == actions[1..] + [a];
    }
  }

  // ---------------------------------------------------------------- Main results

  /** The last k entries of an ordered list of genuine entries are the last k of
      the history, if it holds those. */
  lemma {:induction false} LastLines(lines: seq<Entry>, all: seq<Entry>, recorded: nat, k: nat)
    requires Numbered(all, recorded) && Ordered(lines) && AllGenuine(lines, all, recorded)
    requires k <= |all| && forall x :: x in all[|all| - k..] ==> x in lines
    ensures k <= |lines| && lines[|lines| - k..] == all[|all| - k..]
  {
    if k > 0 {
      assert all[|all| - k..] == [all[|all| - k]] + all[|all| - (k - 1)..];
      LastLines(lines, all, recorded, k - 1);
      var rest := |lines| - (k - 1);
      assert lines[rest..] == all[|all| - (k - 1)..];
      assert all[|all| - k] == all[|all| - k..][0] && all[|all| - k] in lines;
      NextLine(lines, all, recorded, k);
      assert lines[|lines| - k..] == [lines[rest - 1]] + lines[rest..];
    }
  }

  lemma NextLine(lines: seq<Entry>, all: seq<Entry>, recorded: nat, k: nat)
    requires Numbered(all, recorded) && Ordered(lines) && AllGenuine(lines, all, recorded)
    requires 0 < k <= |all| && k - 1 <= |lines|
    requires lines[|lines| - (k - 1)..] == all[|all| - (k - 1)..] && all[|all| - k] in lines
    ensures k <= |lines| && lines[|lines| - k] == all[|all| - k]
  {
    var x, rest := all[|all| - k], |lines| - (k - 1);
    var i :| 0 <= i < |lines| && lines[i] == x;
    if k > 1 {
      assert lines[rest] == lines[rest..][0] == all[|all| - (k - 1)..][0];
      assert x.number < lines[rest].number;
    }
    assert i < rest && x.number <= lines[rest - 1].number;
    assert lines[rest - 1] in lines && Genuine(lines[rest - 1], all, recorded);
  }

  predicate IsTail(tail: seq<Entry>, lines: seq<Entry>) {
    |tail| <= |lines| && tail == lines[|lines| - |tail|..]
  }

  lemma HeldIsTail(s: State)
    requires Shapes(s) && HeldThrough(s.log.events, s.log.recorded, s.file.disk.lines)
    ensures IsTail(s.log.events, s.file.disk.lines)
  {
    KeptNumbers(s.log.limits, s.log.events, s.log.all, s.log.recorded);
    LastLines(s.file.disk.lines, s.log.all, s.log.recorded, |s.log.events|);
  }

  /** No dropped event is forgotten: whenever the writer waits on an empty queue, no
      compaction having failed, or the last one having succeeded and the clock having
      gone forward, the file holds all that was accepted and is still kept. */
  lemma NothingForgotten(s: State)
    requires Reachable(s)
    requires s.stage.Waiting? && s.log.queue == [] && OnTrack(s.past)
    ensures s.file.open && s.log.droppedThrough <= s.file.compactedThrough
    ensures HeldThrough(s.log.events, s.log.accepted, s.file.disk.lines)
    ensures !s.log.recordedAfterClose ==> IsTail(s.log.events, s.file.disk.lines)
  {
    ReachableKeeps(s);
    assert Due(s) == {};
    if !s.log.recordedAfterClose {
      HeldIsTail(s);
    }
  }

  /** Close returning nil means that the file ends with the events kept, and
      that nothing accepted and kept is missing even if more was recorded since. */
  lemma CleanCloseIsDurable(s: State)
    requires Reachable(s) && s.stage == Stopped(false)
    ensures s.file.disk.tail.Clean? && HeldThrough(s.log.events, s.log.accepted, s.file.disk.lines)
    ensures !s.log.recordedAfterClose ==> IsTail(s.log.events, s.file.disk.lines)
  {
    ReachableKeeps(s);
    StoppedIsDurable(s);
  }

  lemma StoppedIsDurable(s: State)
    requires Inv(s) && s.stage == Stopped(false)
    ensures s.file.disk.tail.Clean? && HeldThrough(s.log.events, s.log.accepted, s.file.disk.lines)
    ensures !s.log.recordedAfterClose ==> IsTail(s.log.events, s.file.disk.lines)
  {
    if !s.log.recordedAfterClose {
      HeldIsTail(s);
    }
  }

  /** The file at every step, a crash at any point included. */
  lemma FileIsWholeLinesInOrder(s: State)
    requires Reachable(s)
    ensures Ordered(s.file.disk.lines) && AllGenuine(s.file.disk.lines, s.log.all, s.log.recorded)
    ensures s.file.disk.tail.Cut? ==>
              && !s.file.open && Ordered(s.file.disk.lines + [s.file.disk.tail.entry])
              && Genuine(s.file.disk.tail.entry, s.log.all, s.log.recorded)
    ensures s.file.open ==> s.file.written == |s.file.disk.lines|
  {
    ReachableKeeps(s);
  }

  /** The file is bounded whenever the writer waits, on the same condition. */
  lemma FileIsBounded(s: State)
    requires Reachable(s) && s.stage.Waiting? && OnTrack(s.past)
    ensures s.file.open && s.file.written == |s.file.disk.lines| <= s.log.limits.maxCount + s.log.limits.maxCount / 4
  {
    ReachableKeeps(s);
  }

  /** With no age limit, opening the file a clean close left keeps exactly what
      was kept before. */
  lemma ReopenRestores(s: State, now: int)
    requires Reachable(s) && s.stage == Stopped(false) && !s.log.recordedAfterClose && s.log.limits.maxAge == 0
    ensures s.log.limits.Valid()
    ensures Values(Open(s.log.limits, Values(s.file.disk.lines), now).log.events) == Values(s.log.events)
  {
    ReachableKeeps(s);
    CleanCloseIsDurable(s);
    LinesAreFew(s.file.disk.lines, s.log.all, s.log.recorded);
    TrimLoaded(s.log.limits, s.log.events, s.file.disk.lines, now);
  }

  lemma TrimLoaded(limits: Limits, events: seq<Entry>, lines: seq<Entry>, now: int)
    requires limits.Valid() && limits.maxAge == 0 && IsTail(events, lines) && |events| <= limits.maxCount
    requires |events| == limits.maxCount || |lines| <= |events|
    ensures Values(Open(limits, Values(lines), now).log.events) == Values(events)
  {
    hide Trim, NumberLoaded, Values;
    var loaded := NumberLoaded(Values(lines));
    var kept := Trim(limits, loaded, now);
    assert |loaded| == |Values(loaded)| == |lines| && |kept| == |events|;
    TailValues(kept, loaded);
    TailValues(events, lines);
  }

  lemma TailValues(tail: seq<Entry>, list: seq<Entry>)
    requires IsTail(tail, list)
    ensures Values(tail) == Values(list)[|list| - |tail|..]
  {
  }

  /** A list of genuine entries in order is no longer than the history. */
  lemma {:induction false} LinesAreFew(lines: seq<Entry>, all: seq<Entry>, recorded: nat)
    requires Numbered(all, recorded) && Ordered(lines) && AllGenuine(lines, all, recorded)
    ensures |lines| <= |all|
  {
    forall i | 0 <= i < |lines|
      ensures i <= lines[i].number - 1 + |all| - recorded
    {
      IndexBound(lines, all, recorded, i);
    }
    if lines != [] {
      assert Genuine(lines[|lines| - 1], all, recorded);
    }
  }

  lemma {:induction false} IndexBound(lines: seq<Entry>, all: seq<Entry>, recorded: nat, i: nat)
    requires Ordered(lines) && AllGenuine(lines, all, recorded) && i < |lines|
    ensures i <= lines[i].number - 1 + |all| - recorded
  {
    if i == 0 {
      assert Genuine(lines[0], all, recorded);
    } else {
      IndexBound(lines, all, recorded, i - 1);
    }
  }

  // ---------------------------------------------------------------- Close returns

  predicate ByWriter(a: Action) {
    !a.Record? && !a.CloseLog? && !a.Crash?
  }

  function StageRank(stage: Stage): nat {
    match stage
    case Took(_) => 12
    case Handled => 11
    case SawQueue(_) => 10
    case AboutToCopy(_, closing) => if closing then 4 else 9
    case Copied(_, _, _, closing) => if closing then 3 else 8
    case Rewritten(_, _, closing) => if closing then 2 else 7
    case Waiting => 6
    case Drained => 5
    case Closing(_) => 1
    case Stopped(_) => 0
    case Crashed => 0
  }

  /** The writer steps still to come once the queue is closed, at most. */
  function Rank(s: State): nat {
    7 * |s.log.queue| + StageRank(s.stage)
  }

  function WriterSteps(actions: seq<Action>): nat {
    if actions == [] then 0
    else (if ByWriter(actions[0]) then 1 else 0) + WriterSteps(actions[1..])
  }

  lemma ClosedStep(s: State, a: Action)
    requires s.log.closed && Enabled(s, a)
    ensures Step(s, a).log.closed
    ensures Rank(Step(s, a)) + (if ByWriter(a) then 1 else 0) <= Rank(s)
  {
  }

  /** The writer is never stuck: short of the end it always has a next step. */
  lemma WriterCanMove(s: State)
    requires s.log.closed && !s.stage.Stopped? && !s.stage.Crashed?
    ensures exists a :: ByWriter(a) && Enabled(s, a)
  {
    var a :=
      match s.stage
      case Waiting => if s.log.queue == [] then Drain else Take
      case Took(_) => if MustWrite(s) then WriteOk else Skip
      case Handled => ReadQueueLen
      case SawQueue(_) => ReadDropped(0)
      case AboutToCopy(_, _) => Copy
      case Copied(_, _, _, _) => ReplaceOk
      case Rewritten(_, _, _) => ReopenOk
      case Drained => FinalCheck
      case Closing(_) => CloseFile(true)
      case _ => Crash;
    assert ByWriter(a) && Enabled(s, a);
  }

  /** Close returns: after it, whatever else happens, the writer takes at most
      Rank(s) more steps, and until it has stopped it can always take one. */
  lemma {:induction false} CloseReturns(s: State, actions: seq<Action>, t: State)
    requires s.log.closed && Run(s, actions, t)
    ensures WriterSteps(actions) + Rank(t) <= Rank(s)
    ensures t.stage.Stopped? || t.stage.Crashed? || exists a :: ByWriter(a) && Enabled(t, a)
    decreases |actions|
  {
    hide Step, Rank, ByWriter, Enabled;
    if actions == [] {
      if !t.stage.Stopped? && !t.stage.Crashed? {
        WriterCanMove(t);
      }
    } else {
      ClosedStep(s, actions[0]);
      CloseReturns(Step(s, actions[0]), actions[1..], t);
    }
  }
}
