/** What single steps and whole runs of the event log come to, said of the actions
    taken and not of the machine's own functions: what Record keeps, when Close returns
    an error, and when the file is compacted. */
module EventOutcomes {
  import opened Wrappers
  import opened Events
  import opened EventLog
  import opened EventLogProofs
  import Subscriptions

  // ---------------------------------------------------------------- What is picked and kept

  /** An unset field of a filter picks everything, and a set one only what has it. */
  lemma FilterPicks(f: Filter, e: Event)
    ensures f.kind != "" && f.kind != e.kind ==> !f.Matches(e)
    ensures f.id != "" && f.id != e.id ==> !f.Matches(e)
    ensures f.names != [] && e.name !in f.names ==> !f.Matches(e)
    ensures e.time < f.since ==> !f.Matches(e)
    ensures Filter("", "", [], f.since).Matches(e) <==> e.time >= f.since
    ensures (f.kind in {"", e.kind} && f.id in {"", e.id} && (f.names == [] || e.name in f.names)
             && e.time >= f.since) ==> f.Matches(e)
  {
  }

  /** What is left of a list once it is trimmed: its end, within the count, starting
      with an event not too old; and only events past the count or too old are gone. */
  ghost predicate IsTrimmed(kept: seq<Entry>, list: seq<Entry>, limits: Limits, now: int) {
    && IsTail(kept, list) && |kept| <= limits.maxCount
    && (limits.maxAge > 0 && kept != [] ==> kept[0].event.time >= now - limits.maxAge)
    && forall i :: 0 <= i < |list| - |kept| ==>
         i < |list| - limits.maxCount || (limits.maxAge > 0 && list[i].event.time < now - limits.maxAge)
  }

  /** There is only one such list. */
  lemma TrimmedIsOne(a: seq<Entry>, b: seq<Entry>, list: seq<Entry>, limits: Limits, now: int)
    requires IsTrimmed(a, list, limits, now) && IsTrimmed(b, list, limits, now)
    ensures a == b
  {
    NotShorter(a, b, list, limits, now);
    NotShorter(b, a, list, limits, now);
  }

  lemma NotShorter(a: seq<Entry>, b: seq<Entry>, list: seq<Entry>, limits: Limits, now: int)
    requires IsTrimmed(a, list, limits, now) && IsTrimmed(b, list, limits, now)
    ensures |b| <= |a|
  {
    assert b != [] ==> b[0] == list[|list| - |b|];
  }

  /** The list a subscriber's history is taken from is kept in the same way, and by
      nothing but Record. */
  lemma HistoryIsTrimmed(h: Subscriptions.Hub, a: Subscriptions.Action)
    requires Subscriptions.Registered(h) && Subscriptions.Enabled(h, a)
    ensures var t := Subscriptions.Step(h, a);
            && (a.Record? ==>
                  && t.recorded == h.recorded + [a.event]
                  && IsTrimmed(t.events, h.events + [Entry(|h.recorded| + 1, a.event)], h.limits, a.now))
            && (!a.Record? ==> t.recorded == h.recorded && t.events == h.events)
  {
  }

  /** Record: the event gets the time if it has none and the next number, and of the
      list with it what is kept is trimmed at the time of recording. */
  lemma RecordKeepsTrimmed(s: State, e: Event, stampedAt: int, trimmedAt: int)
    requires Enabled(s, Record(e, stampedAt, trimmedAt))
    ensures var t := Step(s, Record(e, stampedAt, trimmedAt));
            var stamped := Event(if e.time == 0 then stampedAt else e.time, e.kind, e.id, e.name,
                                 e.action, e.message, e.attributes);
            var p := Entry(s.log.recorded + 1, stamped);
            && t.log.recorded == s.log.recorded + 1 && t.log.all == s.log.all + [p]
            && IsTrimmed(t.log.events, s.log.events + [p], s.log.limits, trimmedAt)
  {
    hide Trim;
  }

  /** Open: what is kept of the events loaded is trimmed likewise. */
  lemma OpenKeepsTrimmed(limits: Limits, loaded: seq<Event>, now: int)
    requires limits.Valid()
    ensures IsTrimmed(Open(limits, loaded, now).log.events, NumberLoaded(loaded), limits, now)
    ensures Values(NumberLoaded(loaded)) == loaded
  {
    hide Trim;
  }

  // ---------------------------------------------------------------- When Close returns an error

  /** The run has a failure of what follows the loop: once the queue is drained, a
      compaction that fails, or an open file that cannot be closed. */
  predicate EndsBadly(s: State, actions: seq<Action>, drained: bool)
    decreases |actions|
  {
    && actions != [] && Enabled(s, actions[0])
    && (|| (drained && (actions[0].ReplaceFail? || actions[0].ReopenFail?))
        || (actions[0] == CloseFile(false) && s.file.open)
        || EndsBadly(Step(s, actions[0]), actions[1..], drained || actions[0].Drain?))
  }

  /** The queue is drained. */
  predicate PastLoop(stage: Stage) {
    || stage.Drained? || stage.Closing? || stage.Stopped?
    || ((stage.AboutToCopy? || stage.Copied? || stage.Rewritten?) && stage.closing)
  }

  predicate FailedAlready(stage: Stage) {
    (stage.Closing? || stage.Stopped?) && stage.failed
  }

  lemma StepEnds(s: State, a: Action)
    requires Enabled(s, a) && !a.Crash?
    ensures PastLoop(Step(s, a).stage) <==> PastLoop(s.stage) || a.Drain?
    ensures FailedAlready(Step(s, a).stage) <==>
            || FailedAlready(s.stage)
            || (PastLoop(s.stage) && (a.ReplaceFail? || a.ReopenFail?))
            || (a == CloseFile(false) && s.file.open)
  {
    hide Recorded;
  }

  lemma CrashIsLast(s: State, actions: seq<Action>, t: State)
    requires Run(s, actions, t) && s.stage.Crashed?
    ensures t == s
  {
  }

  lemma {:induction false} FailedIff(s: State, actions: seq<Action>, t: State)
    requires Run(s, actions, t) && t.stage.Stopped?
    ensures t.stage.failed <==> FailedAlready(s.stage) || EndsBadly(s, actions, PastLoop(s.stage))
    decreases |actions|
  {
    if actions != [] {
      var next := Step(s, actions[0]);
      if actions[0].Crash? {
        CrashIsLast(next, actions[1..], t);
        assert false;
      } else {
        StepEnds(s, actions[0]);
        hide Step, Enabled, PastLoop, FailedAlready;
        FailedIff(next, actions[1..], t);
      }
    }
  }

  /** Close returns an error if and only if, after the queue was drained, a compaction
      failed or the file could not be closed; nothing before that makes it. A log just
      opened waits, so this is of every run from there. */
  lemma CloseFailsIff(s: State, actions: seq<Action>, t: State)
    requires s.stage.Waiting? && Run(s, actions, t) && t.stage.Stopped?
    ensures t.stage.failed <==> EndsBadly(s, actions, false)
  {
    hide Run, EndsBadly;
    FailedIff(s, actions, t);
  }

  // ---------------------------------------------------------------- When the file is compacted

  /** Why the writer compacts: the file is not open, it has grown by more than a quarter
      past the count, or the queue was seen empty with an event dropped since the last
      compaction. */
  predicate IsDue(s: State)
    requires s.stage.SawQueue?
  {
    || !s.file.open
    || s.file.written > s.log.limits.maxCount + s.log.limits.maxCount / 4
    || (s.stage.empty && s.file.compactedThrough < s.log.droppedThrough)
  }

  /** A step takes the writer to a compaction, short of Close, if and only if one is due
      and it is not too soon after one that failed. */
  lemma CompactsIffDue(s: State, a: Action)
    requires Enabled(s, a)
    ensures !(s.stage.AboutToCopy? && !s.stage.closing) ==>
              (Step(s, a).stage.AboutToCopy? && !Step(s, a).stage.closing <==>
                 && a.ReadDropped? && IsDue(s)
                 && (s.file.retryAt.Some? ==> a.now >= s.file.retryAt.value))
  {
    hide Recorded;
  }

  /** The next such compaction after one that fails is no sooner than thirty seconds
      later by the writer's clock, whatever happens in between. */
  lemma RetryIsPutOff(s: State, a: Action, actions: seq<Action>, t: State)
    requires Enabled(s, a) && (a.ReplaceFail? || a.ReopenFail?) && !s.stage.closing
    requires Run(Step(s, a), actions, t) && NoneFails(actions)
    requires t.stage.AboutToCopy? && !t.stage.closing
    ensures t.stage.now >= s.stage.now + 30
  {
    FailureIsPutOff(s, a);
    hide Run, Enabled, Step, NoneFails;
    NotSooner(Step(s, a), actions, t, s.stage.now + 30);
  }

  lemma FailureIsPutOff(s: State, a: Action)
    requires Enabled(s, a) && (a.ReplaceFail? || a.ReopenFail?) && !s.stage.closing
    ensures WaitsUntil(Step(s, a), s.stage.now + 30)
  {
    hide Recorded;
  }

  predicate NoneFails(actions: seq<Action>) {
    forall i :: 0 <= i < |actions| ==> !actions[i].ReplaceFail? && !actions[i].ReopenFail?
  }

  /** Retries wait for that time, and a compaction under way came after it. */
  predicate WaitsUntil(s: State, at: int) {
    && s.file.retryAt == Some(at)
    && (s.stage.AboutToCopy? && !s.stage.closing ==> s.stage.now >= at)
  }

  lemma StepWaits(s: State, a: Action, at: int)
    requires Enabled(s, a) && !a.ReplaceFail? && !a.ReopenFail? && WaitsUntil(s, at)
    ensures WaitsUntil(Step(s, a), at)
  {
    hide Recorded;
  }

  lemma {:induction false} NotSooner(s: State, actions: seq<Action>, t: State, at: int)
    requires Run(s, actions, t) && NoneFails(actions) && WaitsUntil(s, at)
    ensures WaitsUntil(t, at)
    decreases |actions|
  {
    if actions != [] {
      StepWaits(s, actions[0], at);
      hide Step, Enabled, WaitsUntil;
      NotSooner(Step(s, actions[0]), actions[1..], t, at);
    }
  }
}
