/** Events, the filters that pick them, and the trimming of a bounded history (package event). */
module Events {
  datatype Event = Event(time: int, kind: string, id: string, name: string,
                         action: string, message: string, attributes: map<string, string>)

  /** The zero time, which Record takes to mean "not stamped yet". */
  const ZERO_TIME := 0

  /** An event and the number it was recorded as. Events loaded when the log is
      opened are numbered ..., -1, 0. The number is part of a pending event in
      the source; in kept lists and files it is the model's bookkeeping, which
      is what lets two equal events be told apart. */
  datatype Entry = Entry(number: int, event: Event)

  /** Limits: maxCount is positive (the source replaces a non-positive one by
      its default), maxAge zero means no limit, and the queue has room. */
  datatype Limits = Limits(maxCount: nat, maxAge: nat, buffer: nat)
  {
    predicate Valid() {
      maxCount >= 1 && buffer >= 1
    }
  }

  datatype Filter = Filter(kind: string, id: string, names: seq<string>, since: int)
  {
    predicate Matches(e: Event) {
      && (kind == "" || e.kind == kind)
      && (id == "" || e.id == id)
      && (|names| == 0 || e.name in names)
      && e.time >= since
    }
  }

  function Stamp(e: Event, now: int): Event {
    if e.time == ZERO_TIME then e.(time := now) else e
  }

  /** How many of the oldest events trim drops: those past maxCount, then a run
      of events older than maxAge. */
  function DropCount(limits: Limits, events: seq<Entry>, now: int): (n: nat)
    ensures n <= |events|
  {
    var over := if |events| > limits.maxCount then |events| - limits.maxCount else 0;
    if limits.maxAge > 0 then AgedFrom(events, over, now - limits.maxAge) else over
  }

  function AgedFrom(events: seq<Entry>, from: nat, oldest: int): (n: nat)
    requires from <= |events|
    ensures from <= n <= |events|
    ensures forall i :: from <= i < n ==> events[i].event.time < oldest
    ensures n < |events| ==> events[n].event.time >= oldest
    decreases |events| - from
  {
    if from < |events| && events[from].event.time < oldest
    then AgedFrom(events, from + 1, oldest)
    else from
  }

  function Trim(limits: Limits, events: seq<Entry>, now: int): (kept: seq<Entry>)
    ensures |kept| <= |events| && |kept| <= limits.maxCount
    ensures kept == events[|events| - |kept|..]
    ensures limits.maxAge == 0 && |events| <= limits.maxCount ==> kept == events
    ensures limits.maxAge == 0 && |events| >= limits.maxCount ==> |kept| == limits.maxCount
    ensures limits.maxAge > 0 && kept != [] ==> kept[0].event.time >= now - limits.maxAge
    ensures forall i :: 0 <= i < |events| - |kept| && |events| - i <= limits.maxCount ==>
              limits.maxAge > 0 && events[i].event.time < now - limits.maxAge
  {
    events[DropCount(limits, events, now)..]
  }

  function Values(entries: seq<Entry>): (events: seq<Event>)
    ensures |events| == |entries|
    ensures forall i :: 0 <= i < |events| ==> events[i] == entries[i].event
  {
    seq(|entries|, i requires 0 <= i < |entries| => entries[i].event)
  }
}
