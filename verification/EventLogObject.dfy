/** The event log as the source has it: the Log, whose fields its mutex guards, the
    eventsFile, which only the writer goroutine uses, and the writer's loop. The loop
    keeps the list of the state machine's steps that it and the other goroutines have
    taken, so what is proved of the machine's runs is proved of it. */
module EventLogObject {
  import opened Wrappers
  import opened Events
  import opened EventLog
  import opened EventLogProofs
  import opened EventOutcomes

  class Log {
    const limits: Limits
    var events: seq<Entry>
    var recorded: nat
    var dropped: nat
    var droppedThrough: nat
    var dropping: bool
    var closed: bool
    var recordedAfterClose: bool
    var queue: seq<Entry>
    ghost var all: seq<Entry>
    ghost var accepted: nat

    ghost function View(): Shared
      reads this
    {
      Shared(limits, events, recorded, dropped, droppedThrough, dropping, closed, recordedAfterClose, queue,
             all, accepted)
    }

    constructor (limits: Limits, loaded: seq<Event>, now: int)
      requires limits.Valid()
      ensures View() == Open(limits, loaded, now).log
    {
      hide Events.Trim, NumberLoaded;
      this.limits := limits;
      var kept := Events.Trim(limits, NumberLoaded(loaded), now);
      events, recorded, dropped, droppedThrough := kept, 0, 0, 0;
      dropping, closed, recordedAfterClose, queue := false, false, false, [];
      all, accepted := kept, 0;
    }

    /** Record's append and trim: what is kept of the events and p. */
    method Trim(p: Entry, now: int) returns (kept: seq<Entry>)
      ensures kept == Keep(limits, events, p, now)
    {
      var list := events + [p];
      var drop := if |list| > limits.maxCount then |list| - limits.maxCount else 0;
      if limits.maxAge > 0 {
        var oldest := now - limits.maxAge;
        ghost var over := drop;
        while drop < |list| && list[drop].event.time < oldest
          invariant over <= drop <= |list|
          invariant AgedFrom(list, drop, oldest) == AgedFrom(list, over, oldest)
        {
          drop := drop + 1;
        }
      }
      kept := list[drop..];
    }

    method Record(e: Event, stampedAt: int, trimmedAt: int) returns (warning: Warning)
      modifies this
      ensures View() == Recorded(old(View()), Stamp(e, stampedAt), trimmedAt)
      ensures warning == WarningOf(old(View()))
    {
      hide Keep, Stamp;
      var p := Entry(recorded + 1, Stamp(e, stampedAt));
      var kept := Trim(p, trimmedAt);
      events, recorded, all := kept, recorded + 1, all + [p];
      if closed {
        warning := if recordedAfterClose then NoWarning else ClosedWarning;
        recordedAfterClose := true;
      } else if |queue| < limits.buffer {
        warning := NoWarning;
        queue, dropping, accepted := queue + [p], false, p.number;
      } else {
        warning := if dropping then NoWarning else DroppingWarning;
        dropped, droppedThrough, dropping, accepted := dropped + 1, p.number, true, p.number;
      }
    }

    method DroppedSince(number: nat) returns (since: bool)
      ensures since <==> droppedThrough > number
    {
      since := droppedThrough > number;
    }

    method KeptEvents() returns (kept: seq<Entry>, last: nat)
      ensures kept == events && last == recorded
    {
      kept, last := events, recorded;
    }

    /** Only the first Close does anything. */
    method Close()
      modifies `closed
      ensures View() == old(View()).(closed := true)
    {
      if !closed {
        closed := true;
      }
    }
  }

  class EventsFile {
    var open: bool
    var written: nat
    var compactedThrough: nat
    var retryAt: Option<int>
    var disk: Disk

    ghost function View(): File
      reads this
    {
      File(open, written, compactedThrough, retryAt, disk)
    }

    constructor (kept: seq<Entry>)
      ensures View() == File(true, |kept|, 0, None, Disk(kept, Clean))
    {
      open, written, compactedThrough, retryAt, disk := true, |kept|, 0, None, Disk(kept, Clean);
    }

    /** writeEvent: a whole line, or its first cut bytes. */
    method WriteEvent(p: Entry, ok: bool, cut: nat)
      requires open
      modifies `disk, `written
      ensures View() == if ok then Appended(old(View()), p) else Discarded(old(View()), p, cut).(open := true)
    {
      if ok {
        disk, written := Disk(disk.lines + [p], disk.tail), written + 1;
      } else {
        disk := disk.(tail := Cut(p, cut));
      }
    }

    method Discard()
      requires open
      modifies `open
      ensures !open
    {
      open := false;
    }
  }

  /** What another goroutine does: record an event, or call Close. */
  datatype Outside = Recording(event: Event, stampedAt: int, trimmedAt: int) | Closed

  /** What happens around one step of the writer: what other goroutines do before it,
      whether its file operation succeeds, how much a failed write leaves, and what
      its clock reads. */
  datatype Turn = Turn(outside: seq<Outside>, ok: bool, cut: nat, now: int)

  /** The writer goroutine and what it shares. Stage, past and trace are the state
      machine's: where the writer is, what has been, and the steps taken. */
  class Writer {
    const log: Log
    const file: EventsFile
    const schedule: nat -> Turn
    var turn: nat
    ghost const start: State
    ghost const closeAt: nat
    ghost var stage: Stage
    ghost var past: Past
    ghost var trace: seq<Action>

    ghost function View(): State
      reads this, log, file
    {
      State(log.View(), file.View(), stage, past)
    }

    /** Every step was one of the machine's, from start on; and Close is called. */
    ghost predicate Valid()
      reads this, log, file
    {
      && start.stage.Waiting? && Run(start, trace, View()) && Inv(View())
      && Closed in schedule(closeAt).outside && (log.closed || turn <= closeAt)
    }

    constructor (limits: Limits, loaded: seq<Event>, now: int, schedule: nat -> Turn, ghost closeAt: nat)
      requires limits.Valid() && Closed in schedule(closeAt).outside
      ensures fresh(log) && fresh(file) && Valid()
      ensures start == View() == Open(limits, loaded, now)
    {
      hide Run, Inv, Events.Trim, NumberLoaded;
      log := new Log(limits, loaded, now);
      file := new EventsFile(Events.Trim(limits, NumberLoaded(loaded), now));
      this.schedule, turn, this.closeAt := schedule, 0, closeAt;
      start, stage, past, trace := Open(limits, loaded, now), Waiting, Past(0, true, true, true), [];
      new;
      OpenEstablishes(limits, loaded, now);
      RunNothing(start);
    }

    /** One more step has been taken. */
    ghost method Advance(s: State, a: Action)
      requires start.stage.Waiting? && Run(start, trace, s) && Inv(s)
      requires Enabled(s, a) && View() == Step(s, a)
      requires Closed in schedule(closeAt).outside && (log.closed || turn <= closeAt)
      modifies `trace
      ensures Valid() && View() == old(View())
    {
      hide Run, Inv, Enabled, Step;
      RunStep(start, trace, s, a);
      StepKeeps(s, a);
      trace := trace + [a];
    }

    /** What the other goroutines leave of what the writer relies on: the queue only
        grows, and once it is closed it does not. */
    twostate predicate Meanwhile()
      reads this, log
    {
      && turn > old(turn) && old(log.queue) <= log.queue
      && (old(log.closed) ==> log.closed && log.queue == old(log.queue))
    }

    method One(o: Outside)
      requires Valid() && !stage.Crashed?
      modifies `trace, log
      ensures Valid()
      ensures old(log.queue) <= log.queue && (old(log.closed) ==> log.closed && log.queue == old(log.queue))
      ensures o.Closed? ==> log.closed
    {
      hide Run, Inv, Keep, Stamp;
      ghost var s := View();
      match o {
        case Recording(e, stampedAt, trimmedAt) =>
          var _ := log.Record(e, stampedAt, trimmedAt);
          Advance(s, Record(e, stampedAt, trimmedAt));
        case Closed =>
          var first := !log.closed;
          log.Close();
          if first {
            Advance(s, CloseLog);
          }
      }
    }

    /** What the other goroutines do before the writer's next step. */
    method Others() returns (t: Turn)
      requires Valid() && !stage.Crashed?
      modifies `turn, `trace, log
      ensures Valid() && Meanwhile() && t == schedule(old(turn)) && turn == old(turn) + 1
    {
      hide Run, Inv;
      t := schedule(turn);
      for i := 0 to |t.outside|
        invariant Valid() && turn == old(turn)
        invariant old(log.queue) <= log.queue && (old(log.closed) ==> log.closed && log.queue == old(log.queue))
        invariant Closed in t.outside[..i] ==> log.closed
      {
        One(t.outside[i]);
        assert t.outside[..i + 1] == t.outside[..i] + [t.outside[i]];
      }
      assert t.outside[..|t.outside|] == t.outside;
      turn := turn + 1;
    }

    /** The next event of the queue, once there is one, or none once it is closed. */
    method Receive() returns (p: Option<Entry>)
      requires Valid() && stage.Waiting?
      modifies `turn, `trace, `stage, log
      ensures Valid() && turn > old(turn) && (old(log.closed) ==> log.closed)
      ensures stage == if p.Some? then Took(p.value) else Drained
      ensures p.Some? && old(log.closed) ==> |log.queue| < |old(log.queue)|
    {
      hide Run, Inv;
      var _ := Others();
      while log.queue == [] && !log.closed
        invariant Valid() && stage.Waiting? && Meanwhile()
        decreases if log.closed then 0 else closeAt + 1 - turn
      {
        var _ := Others();
      }
      ghost var s := View();
      if log.queue == [] {
        stage := Drained;
        Advance(s, Drain);
        return None;
      }
      p, stage := Some(log.queue[0]), Took(log.queue[0]);
      log.queue := log.queue[1..];
      Advance(s, Take);
    }

    /** Write the event, unless a compaction already has or the file is not open. */
    method Handle(p: Entry)
      requires Valid() && stage == Took(p)
      modifies `turn, `trace, `stage, log, file
      ensures Valid() && stage.Handled? && Meanwhile()
    {
      hide Run, Inv;
      var t := Others();
      ghost var s := View();
      if p.number > file.compactedThrough && file.open {
        file.WriteEvent(p, t.ok, t.cut);
        if !t.ok {
          file.Discard();
        }
        stage := Handled;
        Advance(s, if t.ok then WriteOk else WriteFail(t.cut));
      } else {
        stage := Handled;
        Advance(s, Skip);
      }
    }

    method QueueIsEmpty() returns (empty: bool)
      requires Valid() && stage.Handled?
      modifies `turn, `trace, `stage, log
      ensures Valid() && stage == SawQueue(empty) && Meanwhile()
    {
      hide Run, Inv;
      var _ := Others();
      ghost var s := View();
      empty := log.queue == [];
      stage := SawQueue(empty);
      Advance(s, ReadQueueLen);
    }

    /** compact: a copy of the kept events, the file replaced by it, and reopened. */
    method Compact() returns (ok: bool)
      requires Valid() && stage.AboutToCopy?
      modifies this, log, file
      ensures Valid() && Meanwhile()
      ensures ok <==> schedule(old(turn) + 1).ok && schedule(old(turn) + 2).ok
      ensures ok ==> turn == old(turn) + 3 && file.open
      ensures ok ==> stage == if old(stage).closing then Closing(false) else Waiting
      ensures !ok ==> && (stage.Copied? || stage.Rewritten?)
                      && stage.now == old(stage).now && stage.closing == old(stage).closing
    {
      hide Run, Inv;
      var kept, last := Copy();
      var t := Others();
      if !t.ok {
        return false;
      }
      Replace(kept, last);
      t := Others();
      if !t.ok {
        return false;
      }
      Reopen(kept);
      return true;
    }

    method Copy() returns (kept: seq<Entry>, last: nat)
      requires Valid() && stage.AboutToCopy?
      modifies `turn, `trace, `stage, log
      ensures Valid() && Meanwhile() && stage == Copied(kept, last, old(stage).now, old(stage).closing)
      ensures turn == old(turn) + 1
    {
      hide Run, Inv;
      var _ := Others();
      ghost var s := View();
      kept, last := log.KeptEvents();
      stage := Copied(kept, last, stage.now, stage.closing);
      Advance(s, EventLog.Copy);
    }

    /** The file is replaced whole, and its old handle closed. */
    method Replace(kept: seq<Entry>, last: nat)
      requires Valid() && stage.Copied? && stage.copy == kept && stage.last == last
      modifies `trace, `stage, file
      ensures Valid() && stage == Rewritten(|kept|, old(stage).now, old(stage).closing)
    {
      hide Run, Inv;
      ghost var s := View();
      file.disk, file.compactedThrough, file.open := Disk(kept, Clean), last, false;
      stage := Rewritten(|kept|, stage.now, stage.closing);
      Advance(s, ReplaceOk);
    }

    method Reopen(kept: seq<Entry>)
      requires Valid() && stage.Rewritten? && stage.count == |kept|
      modifies `trace, `stage, `past, file
      ensures Valid() && file.open && stage == if old(stage).closing then Closing(false) else Waiting
    {
      hide Run, Inv;
      ghost var s := View();
      file.open, file.written := true, |kept|;
      past, stage := past.(compacted := true), if stage.closing then Closing(false) else Waiting;
      Advance(s, ReopenOk);
    }

    /** The end of the loop's body: whether the file is to be compacted, and, in
        tryCompact, whether it is too soon after a failure. */
    method MustCompact(empty: bool) returns (must: bool, now: int)
      requires Valid() && stage == SawQueue(empty)
      modifies `turn, `trace, `stage, `past, log
      ensures Valid() && Meanwhile() && stage == if must then AboutToCopy(now, false) else Waiting
    {
      hide Run, Inv;
      var t := Others();
      ghost var s := View();
      now := t.now;
      var since := log.DroppedSince(file.compactedThrough);
      var caughtUp := empty && since;
      if !file.open || file.written > log.limits.maxCount + log.limits.maxCount / 4 || caughtUp {
        must := !(file.retryAt.Some? && now < file.retryAt.value);
        past, stage := Timed(past, now), if must then AboutToCopy(now, false) else Waiting;
      } else {
        must, stage := false, Waiting;
      }
      Advance(s, ReadDropped(now));
    }

    /** tryCompact, past its check of the time. */
    method TryCompact(now: int)
      requires Valid() && stage == AboutToCopy(now, false)
      modifies this, log, file
      ensures Valid() && Meanwhile() && stage.Waiting?
    {
      hide Run, Inv;
      var ok := Compact();
      if !ok {
        PutOff(now);
      }
    }

    method PutOff(now: int)
      requires Valid() && (stage.Copied? || stage.Rewritten?) && stage.now == now && !stage.closing
      modifies `trace, `stage, `past, file
      ensures Valid() && stage.Waiting?
    {
      hide Run, Inv;
      ghost var s := View();
      file.retryAt := Some(now + RETRY_DELAY);
      past, stage := past.(compacted := false, faultless := false), Waiting;
      Advance(s, if s.stage.Copied? then ReplaceFail else ReopenFail);
    }

    /** write: the writer goroutine, until Close has been called and the queue is
        drained; failed is whether Close returns an error. If it does not, the file
        holds all that was accepted and is still kept, and if nothing was recorded
        after Close it ends with exactly the events kept, whatever was dropped and
        whatever failed before. */
    method Write() returns (failed: bool)
      requires Valid() && stage.Waiting?
      modifies this, log, file
      ensures Valid() && stage == Stopped(failed) && log.closed && log.queue == []
      ensures !failed ==> file.disk.tail.Clean? && HeldThrough(log.events, log.accepted, file.disk.lines)
      ensures !failed && !log.recordedAfterClose ==> IsTail(log.events, file.disk.lines)
      ensures failed <==> EndsBadly(start, trace, false)
    {
      hide Run, Inv, EndsBadly;
      while true
        invariant Valid() && stage.Waiting?
        decreases if log.closed then 0 else closeAt + 1 - turn, |log.queue|
      {
        var p := Receive();
        if p.None? {
          break;
        }
        Handle(p.value);
        var empty := QueueIsEmpty();
        var must, now := MustCompact(empty);
        if must {
          TryCompact(now);
        }
      }
      ghost var lacked;
      failed, lacked := Finish();
      StoppedIsDrained(View());
      FailedIff(start, trace, View());
      if !failed {
        StoppedIsDurable(View());
      }
    }

    /** What follows the loop: compact if the file lacks an event, and close it. It fails
        if and only if replacing, reopening or closing the file was answered badly. */
    method Finish() returns (failed: bool, ghost lacked: bool)
      requires Valid() && stage.Drained?
      modifies this, log, file
      ensures Valid() && stage == Stopped(failed)
      ensures !lacked ==> (failed <==> !schedule(old(turn) + 1).ok)
      ensures lacked ==>
                (failed <==> !schedule(old(turn) + 2).ok || !schedule(old(turn) + 3).ok || !schedule(old(turn) + 4).ok)
    {
      hide Run, Inv;
      var lacks := Lacks();
      lacked, failed := lacks, false;
      if lacks {
        var ok := Compact();
        if !ok {
          failed := true;
          GiveUp();
        }
      }
      failed := CloseFile(failed);
    }

    method CloseFile(before: bool) returns (failed: bool)
      requires Valid() && stage == Closing(before)
      modifies `turn, `trace, `stage, log, file
      ensures Valid() && stage == Stopped(failed)
      ensures failed <==> before || (old(file.open) && !schedule(old(turn)).ok)
    {
      hide Run, Inv;
      var t := Others();
      ghost var s := View();
      failed := before || (file.open && !t.ok);
      file.open := false;
      stage := Stopped(failed);
      Advance(s, EventLog.CloseFile(t.ok));
    }

    method Lacks() returns (lacks: bool)
      requires Valid() && stage.Drained?
      modifies `turn, `trace, `stage, log
      ensures Valid() && stage == if lacks then AboutToCopy(0, true) else Closing(false)
      ensures turn == old(turn) + 1 && (!lacks ==> file.open)
    {
      hide Run, Inv;
      var _ := Others();
      ghost var s := View();
      var since := log.DroppedSince(file.compactedThrough);
      lacks := !file.open || since;
      stage := if lacks then AboutToCopy(0, true) else Closing(false);
      Advance(s, FinalCheck);
    }

    method GiveUp()
      requires Valid() && (stage.Copied? || stage.Rewritten?) && stage.closing
      modifies `trace, `stage, `past
      ensures Valid() && stage == Closing(true)
    {
      hide Run, Inv;
      ghost var s := View();
      past, stage := past.(compacted := false, faultless := false), Closing(true);
      Advance(s, if s.stage.Copied? then ReplaceFail else ReopenFail);
    }
  }

  lemma StoppedIsDrained(s: State)
    requires Inv(s) && s.stage.Stopped?
    ensures s.log.closed && s.log.queue == []
  {
  }
}
