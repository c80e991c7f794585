/** The write-behind event log (internal/event/log.go) as a state machine.

    Each action is one atomic step of the source: a critical section of the
    log's mutex, one operation on the bounded queue, or one file operation of
    the writer goroutine. Any goroutine may act between two writer steps, so a
    run is any sequence of enabled actions. */
module EventLog {
  import opened Wrappers
  import opened Events

  /** compactionRetryDelay, in seconds. */
  const RETRY_DELAY := 30

  /** What follows the last whole line of the file: nothing, or the first bytes
      of the line of an event whose write did not succeed. */
  datatype Tail = Clean | Cut(entry: Entry, bytes: nat)

  datatype Disk = Disk(lines: seq<Entry>, tail: Tail)

  /** Where the writer goroutine is. */
  datatype Stage =
    | Waiting                       // receiving from the queue
    | Took(p: Entry)                // received p, not yet written or skipped
    | Handled                       // about to read the queue's length
    | SawQueue(empty: bool)         // about to read droppedThrough and decide
    | AboutToCopy(now: int, closing: bool)
    | Copied(copy: seq<Entry>, last: nat, now: int, closing: bool)
    | Rewritten(count: nat, now: int, closing: bool)
    | Drained                       // the queue is closed and empty
    | Closing(failed: bool)         // about to close the file
    | Stopped(failed: bool)         // failed is what Close returns
    | Crashed

  /** The Log's fields guarded by its mutex, and the bounded channel to the
      writer. The last two are history, kept for stating properties: every event
      the log has held, and the last number recorded before Close. */
  datatype Shared = Shared(
    limits: Limits,
    events: seq<Entry>,
    recorded: nat,
    dropped: nat,
    droppedThrough: nat,
    dropping: bool,
    closed: bool,
    recordedAfterClose: bool,
    queue: seq<Entry>,
    all: seq<Entry>,
    accepted: nat
  )

  /** The events file as the writer sees it, and the file itself. Until a compaction
      fails, retryAt is the zero time, which delays nothing: that is None. */
  datatype File = File(open: bool, written: nat, compactedThrough: nat, retryAt: Option<int>, disk: Disk)

  /** History, kept for stating properties: the last clock reading, whether the clock
      has only gone forward, whether the last compaction succeeded, and whether all
      have. */
  datatype Past = Past(clock: int, steady: bool, compacted: bool, faultless: bool)

  datatype State = State(log: Shared, file: File, stage: Stage, past: Past)

  datatype Action =
    | Record(event: Event, stampedAt: int, trimmedAt: int)
    | Take
    | WriteOk
    | WriteFail(bytes: nat)
    | Skip
    | ReadQueueLen
    | ReadDropped(now: int)
    | Copy
    | ReplaceOk
    | ReplaceFail
    | ReopenOk
    | ReopenFail
    | CloseLog
    | Drain
    | FinalCheck
    | CloseFile(ok: bool)
    | Crash

  function MaxWritten(limits: Limits): nat {
    limits.maxCount + limits.maxCount / 4
  }

  /** The number the entries of a newly loaded list get: the last one is 0. */
  function NumberLoaded(events: seq<Event>): (entries: seq<Entry>)
    ensures Values(entries) == events
  {
    seq(|events|, i requires 0 <= i < |events| => Entry(i + 1 - |events|, events[i]))
  }

  /** open: load, trim, compact, and only then start the writer. */
  function Open(limits: Limits, loaded: seq<Event>, now: int): State
    requires limits.Valid()
  {
    Started(limits, Trim(limits, NumberLoaded(loaded), now))
  }

  function Started(limits: Limits, kept: seq<Entry>): State {
    State(Shared(limits, kept, 0, 0, 0, false, false, false, [], kept, 0),
          File(true, |kept|, 0, None, Disk(kept, Clean)),
          Waiting, Past(0, true, true, true))
  }

  predicate Enabled(s: State, a: Action) {
    && !s.stage.Crashed?
    && match a
       case Record(_, _, _) => true
       case Take => s.stage.Waiting? && s.log.queue != []
       case WriteOk => MustWrite(s)
       case WriteFail(_) => MustWrite(s)
       case Skip => s.stage.Took? && !MustWrite(s)
       case ReadQueueLen => s.stage.Handled?
       case ReadDropped(_) => s.stage.SawQueue?
       case Copy => s.stage.AboutToCopy?
       case ReplaceOk => s.stage.Copied?
       case ReplaceFail => s.stage.Copied?
       case ReopenOk => s.stage.Rewritten?
       case ReopenFail => s.stage.Rewritten?
       case CloseLog => !s.log.closed
       case Drain => s.stage.Waiting? && s.log.closed && s.log.queue == []
       case FinalCheck => s.stage.Drained?
       case CloseFile(_) => s.stage.Closing?
       case Crash => true
  }

  /** An event the file was already compacted with is not written again, and
      nothing is written while the file is not open. */
  predicate MustWrite(s: State) {
    s.stage.Took? && s.stage.p.number > s.file.compactedThrough && s.file.open
  }

  function Step(s: State, a: Action): State
    requires Enabled(s, a)
  {
    match a
    case Record(e, stampedAt, trimmedAt) => AfterRecord(s, Stamp(e, stampedAt), trimmedAt)
    case Take => AfterTake(s)
    case WriteOk => AfterWriteOk(s)
    case WriteFail(bytes) => AfterWriteFail(s, bytes)
    case Skip => AfterSkip(s)
    case ReadQueueLen => AfterReadQueueLen(s)
    case ReadDropped(now) => AfterDecision(s, now)
    case Copy => AfterCopy(s)
    case ReplaceOk => AfterReplace(s)
    case ReplaceFail => AfterFailedCompaction(s, s.stage.now, s.stage.closing)
    case ReopenOk => AfterReopen(s)
    case ReopenFail => AfterFailedCompaction(s, s.stage.now, s.stage.closing)
    case CloseLog => AfterClose(s)
    case Drain => AfterDrain(s)
    case FinalCheck => AfterFinalCheck(s)
    case CloseFile(ok) => AfterCloseFile(s, ok)
    case Crash => AfterCrash(s)
  }

  function Keep(limits: Limits, events: seq<Entry>, p: Entry, now: int): seq<Entry> {
    Trim(limits, events + [p], now)
  }

  /** Record's critical section: append, trim, number, queue. The event is
      dropped from the queue when that is full, and past Close is only kept. */
  function Recorded(log: Shared, e: Event, now: int): Shared {
    var p := Entry(log.recorded + 1, e);
    var room := |log.queue| < log.limits.buffer;
    log.(events := Keep(log.limits, log.events, p, now),
         recorded := log.recorded + 1,
         queue := if !log.closed && room then log.queue + [p] else log.queue,
         dropped := if !log.closed && !room then log.dropped + 1 else log.dropped,
         droppedThrough := if !log.closed && !room then p.number else log.droppedThrough,
         dropping := if log.closed then log.dropping else !room,
         recordedAfterClose := log.recordedAfterClose || log.closed,
         all := log.all + [p],
         accepted := if log.closed then log.accepted else p.number)
  }

  /** queueWarning: what Record finds worth warning of. */
  datatype Warning = NoWarning | DroppingWarning | ClosedWarning

  function WarningOf(log: Shared): Warning {
    if log.closed then (if log.recordedAfterClose then NoWarning else ClosedWarning)
    else if |log.queue| < log.limits.buffer || log.dropping then NoWarning else DroppingWarning
  }

  function AfterRecord(s: State, e: Event, now: int): State {
    s.(log := Recorded(s.log, e, now))
  }

  function AfterTake(s: State): State
    requires s.log.queue != []
  {
    s.(stage := Took(s.log.queue[0]), log := s.log.(queue := s.log.queue[1..]))
  }

  function AfterWriteOk(s: State): State
    requires s.stage.Took?
  {
    s.(file := Appended(s.file, s.stage.p), stage := Handled)
  }

  function Appended(f: File, p: Entry): File {
    f.(disk := Disk(f.disk.lines + [p], f.disk.tail), written := f.written + 1)
  }

  /** A write that failed may have left part of its line: the file is discarded. */
  function AfterWriteFail(s: State, bytes: nat): State
    requires s.stage.Took?
  {
    s.(file := Discarded(s.file, s.stage.p, bytes), stage := Handled)
  }

  function Discarded(f: File, p: Entry, bytes: nat): File {
    f.(disk := f.disk.(tail := Cut(p, bytes)), open := false)
  }

  function AfterSkip(s: State): State {
    s.(stage := Handled)
  }

  function AfterReadQueueLen(s: State): State {
    s.(stage := SawQueue(|s.log.queue| == 0))
  }

  predicate CaughtUp(s: State)
    requires s.stage.SawQueue?
  {
    s.stage.empty && s.log.droppedThrough > s.file.compactedThrough
  }

  function Timed(past: Past, now: int): Past {
    past.(clock := now, steady := past.steady && past.clock <= now)
  }

  predicate TooSoon(f: File, now: int) {
    f.retryAt.Some? && now < f.retryAt.value
  }

  /** The end of the writer's loop body, up to where tryCompact decides. */
  function AfterDecision(s: State, now: int): State
    requires s.stage.SawQueue?
  {
    if !s.file.open || s.file.written > MaxWritten(s.log.limits) || CaughtUp(s) then
      s.(past := Timed(s.past, now), stage := if TooSoon(s.file, now) then Waiting else AboutToCopy(now, false))
    else
      s.(stage := Waiting)
  }

  /** keptEvents: the copy is taken under the lock, and used outside it. */
  function AfterCopy(s: State): State
    requires s.stage.AboutToCopy?
  {
    s.(stage := Copied(s.log.events, s.log.recorded, s.stage.now, s.stage.closing))
  }

  function AfterReplace(s: State): State
    requires s.stage.Copied?
  {
    s.(file := Replaced(s.file, s.stage.copy, s.stage.last),
       stage := Rewritten(|s.stage.copy|, s.stage.now, s.stage.closing))
  }

  /** The file is replaced whole, and the old handle closed. */
  function Replaced(f: File, copy: seq<Entry>, last: nat): File {
    f.(disk := Disk(copy, Clean), compactedThrough := last, open := false)
  }

  function AfterReopen(s: State): State
    requires s.stage.Rewritten?
  {
    s.(file := s.file.(open := true, written := s.stage.count), past := s.past.(compacted := true),
       stage := if s.stage.closing then Closing(false) else Waiting)
  }

  function AfterFailedCompaction(s: State, now: int, closing: bool): State {
    var past := s.past.(compacted := false, faultless := false);
    if closing
    then s.(past := past, stage := Closing(true))
    else s.(past := past, file := s.file.(retryAt := Some(now + RETRY_DELAY)), stage := Waiting)
  }

  function AfterClose(s: State): State {
    s.(log := s.log.(closed := true))
  }

  function AfterDrain(s: State): State {
    s.(stage := Drained)
  }

  function AfterFinalCheck(s: State): State {
    s.(stage := if !s.file.open || s.log.droppedThrough > s.file.compactedThrough
                then AboutToCopy(0, true) else Closing(false))
  }

  function AfterCloseFile(s: State, ok: bool): State
    requires s.stage.Closing?
  {
    s.(stage := Stopped(s.stage.failed || (s.file.open && !ok)), file := s.file.(open := false))
  }

  function AfterCrash(s: State): State {
    s.(stage := Crashed, file := s.file.(open := false))
  }

  /** t is reached from s by performing the actions in turn. */
  predicate Run(s: State, actions: seq<Action>, t: State)
    decreases |actions|
  {
    if actions == [] then s == t
    else Enabled(s, actions[0]) && Run(Step(s, actions[0]), actions[1..], t)
  }
}
