/** What Record warns of over a whole run of the event log. */
module EventWarnings {
  import opened Events
  import opened EventLog

  /** A record that finds no room in the queue, and one that finds some. */
  predicate Drops(s: State, a: Action) {
    a.Record? && !s.log.closed && |s.log.queue| >= s.log.limits.buffer
  }

  predicate Queues(s: State, a: Action) {
    a.Record? && !s.log.closed && |s.log.queue| < s.log.limits.buffer
  }

  predicate IsLate(s: State, a: Action) {
    a.Record? && s.log.closed
  }

  // Of the actions of a run, from where it begins.

  /** How often the run warns so. */
  function Warned(s: State, actions: seq<Action>, w: Warning): nat
    decreases |actions|
  {
    if actions == [] || !Enabled(s, actions[0]) then 0
    else
      (if actions[0].Record? && WarningOf(s.log) == w then 1 else 0) +
      Warned(Step(s, actions[0]), actions[1..], w)
  }

  /** How many runs of drops there are, one ending when an event is queued again;
      dropping is whether the run begins in one. */
  function RunsOfDrops(s: State, actions: seq<Action>, dropping: bool): nat
    decreases |actions|
  {
    if actions == [] || !Enabled(s, actions[0]) then 0
    else
      var next := Step(s, actions[0]);
      if Drops(s, actions[0]) then (if dropping then 0 else 1) + RunsOfDrops(next, actions[1..], true)
      else RunsOfDrops(next, actions[1..], dropping && !Queues(s, actions[0]))
  }

  predicate RecordsLate(s: State, actions: seq<Action>)
    decreases |actions|
  {
    && actions != [] && Enabled(s, actions[0])
    && (IsLate(s, actions[0]) || RecordsLate(Step(s, actions[0]), actions[1..]))
  }

  lemma StepDropping(s: State, a: Action)
    requires Enabled(s, a)
    ensures Step(s, a).log.dropping == if Drops(s, a) then true else s.log.dropping && !Queues(s, a)
    ensures Step(s, a).log.recordedAfterClose == (s.log.recordedAfterClose || IsLate(s, a))
  {
    hide Keep, Stamp;
  }

  /** Each run of dropped events is warned of exactly once. */
  lemma {:induction false} EachRunIsWarnedOfOnce(s: State, actions: seq<Action>, t: State)
    requires Run(s, actions, t)
    ensures Warned(s, actions, DroppingWarning) == RunsOfDrops(s, actions, s.log.dropping)
    decreases |actions|
  {
    if actions != [] {
      hide Step, Enabled;
      StepDropping(s, actions[0]);
      EachRunIsWarnedOfOnce(Step(s, actions[0]), actions[1..], t);
    }
  }

  /** So is recording after Close, however often that is done. */
  lemma {:induction false} RecordingLateIsWarnedOfOnce(s: State, actions: seq<Action>, t: State)
    requires Run(s, actions, t)
    ensures Warned(s, actions, ClosedWarning) ==
            if !s.log.recordedAfterClose && RecordsLate(s, actions) then 1 else 0
    decreases |actions|
  {
    if actions != [] {
      hide Step, Enabled;
      StepDropping(s, actions[0]);
      RecordingLateIsWarnedOfOnce(Step(s, actions[0]), actions[1..], t);
    }
  }

  function DropsIn(s: State, actions: seq<Action>): nat
    decreases |actions|
  {
    if actions == [] || !Enabled(s, actions[0]) then 0
    else (if Drops(s, actions[0]) then 1 else 0) + DropsIn(Step(s, actions[0]), actions[1..])
  }

  lemma StepCounts(s: State, a: Action)
    requires Enabled(s, a)
    ensures Step(s, a).log.dropped == s.log.dropped + if Drops(s, a) then 1 else 0
  {
    hide Keep, Stamp;
  }

  /** And the number warned with is the number of events dropped so far. */
  lemma {:induction false} DropsAreCounted(s: State, actions: seq<Action>, t: State)
    requires Run(s, actions, t)
    ensures t.log.dropped == s.log.dropped + DropsIn(s, actions)
    decreases |actions|
  {
    if actions != [] {
      hide Step, Enabled;
      StepCounts(s, actions[0]);
      DropsAreCounted(Step(s, actions[0]), actions[1..], t);
    }
  }
}
