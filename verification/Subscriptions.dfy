/** Subscriptions to the event log (internal/event/subscription.go): a map of
    live subscriptions, each with a bounded channel, and what Record, Subscribe,
    Close and the readers do to them. */
module Subscriptions {
  import opened Events

  /** subscriptionBuffer. */
  const BUFFER := 256

  /** Why a subscription ended: nil, or ErrFellBehind. */
  datatype Reason = Ended | FellBehind

  /** A subscription: its channel's buffer, whether the channel is open, and why
      it was closed. The last three are history: what was read from the channel,
      and which recorded events fall between its start and its end. */
  datatype Subscription = Subscription(filter: Filter, buffer: seq<Event>, open: bool, err: Reason,
                                       read: seq<Event>, from: nat, until: nat)

  /** The log's side: registered is the log's subscription map, subs every
      subscription made, recorded every event recorded since the log opened. */
  datatype Hub = Hub(limits: Limits, events: seq<Entry>, closed: bool, registered: set<nat>,
                     subs: map<nat, Subscription>, recorded: seq<Event>)

  datatype Action =
    | Record(event: Event, now: int)
    | Subscribe(id: nat, filter: Filter)
    | Receive(reader: nat)
    | CloseSubscription(owner: nat)
    | CloseLog

  // ---------------------------------------------------------------- Operations

  /** list: the matching events, the last limit of them if limit is not zero. */
  function List(events: seq<Entry>, filter: Filter, limit: nat): (out: seq<Event>) {
    var picked := Picked(filter, Values(events));
    if limit > 0 && |picked| > limit then picked[|picked| - limit..] else picked
  }

  function Picked(filter: Filter, events: seq<Event>): seq<Event> {
    if events == [] then []
    else
      var front := Picked(filter, events[..|events| - 1]);
      var e := events[|events| - 1];
      if filter.Matches(e) then front + [e] else front
  }

  /** end, on a registered subscription: its channel is closed, which is allowed
      only of an open one. */
  function End(sub: Subscription, err: Reason, now: nat): Subscription
    requires sub.open
  {
    sub.(open := false, err := err, until := now)
  }

  /** send: on an open channel only, since sending on a closed one panics. */
  function Send(sub: Subscription, e: Event, now: nat): Subscription
    requires sub.open
  {
    if |sub.buffer| < BUFFER then sub.(buffer := sub.buffer + [e]) else End(sub, FellBehind, now)
  }

  /** What Record does to one registered subscription. */
  function Offer(sub: Subscription, e: Event, now: nat): Subscription
    requires sub.open
  {
    if sub.filter.Matches(e) then Send(sub, e, now) else sub
  }

  /** A subscription is registered exactly while its channel is open, so what the
      operations ask of the channel always holds. */
  predicate Registered(h: Hub) {
    && h.registered <= h.subs.Keys
    && forall id :: id in h.subs ==> (id in h.registered <==> h.subs[id].open)
  }

  predicate Enabled(h: Hub, a: Action) {
    match a
    case Record(_, _) => true
    case Subscribe(id, _) => id !in h.subs
    case Receive(id) => id in h.subs && h.subs[id].buffer != []
    case CloseSubscription(id) => id in h.subs
    case CloseLog => !h.closed
  }

  function Step(h: Hub, a: Action): Hub
    requires Registered(h) && Enabled(h, a)
  {
    match a
    case Record(e, now) => AfterRecord(h, e, now)
    case Subscribe(id, filter) => AfterSubscribe(h, id, filter)
    case Receive(id) => AfterReceive(h, id)
    case CloseSubscription(id) => AfterEnd(h, id)
    case CloseLog => AfterCloseLog(h)
  }

  function AfterRecord(h: Hub, e: Event, now: int): Hub
    requires Registered(h)
  {
    var subs := map id | id in h.subs :: if id in h.registered then Offer(h.subs[id], e, |h.recorded|) else h.subs[id];
    h.(events := Trim(h.limits, h.events + [Entry(|h.recorded| + 1, e)], now),
       subs := subs,
       registered := (set id | id in h.registered && subs[id].open),
       recorded := h.recorded + [e])
  }

  function NewSubscription(h: Hub, filter: Filter): Subscription {
    Subscription(filter, [], !h.closed, Ended, [], |h.recorded|, |h.recorded|)
  }

  /** A subscription to a closed log has ended already. */
  function AfterSubscribe(h: Hub, id: nat, filter: Filter): Hub {
    h.(subs := h.subs[id := NewSubscription(h, filter)],
       registered := if h.closed then h.registered else h.registered + {id})
  }

  function AfterReceive(h: Hub, id: nat): Hub
    requires id in h.subs && h.subs[id].buffer != []
  {
    var sub := h.subs[id];
    h.(subs := h.subs[id := sub.(buffer := sub.buffer[1..], read := sub.read + [sub.buffer[0]])])
  }

  function AfterEnd(h: Hub, id: nat): Hub
    requires Registered(h)
  {
    if id !in h.registered then h
    else h.(subs := h.subs[id := End(h.subs[id], Ended, |h.recorded|)], registered := h.registered - {id})
  }

  function AfterCloseLog(h: Hub): Hub
    requires Registered(h)
  {
    h.(closed := true, registered := {},
       subs := map id | id in h.subs ::
         if id in h.registered then End(h.subs[id], Ended, |h.recorded|) else h.subs[id])
  }

  predicate Run(h: Hub, actions: seq<Action>, t: Hub)
    decreases |actions|
  {
    if actions == [] then h == t
    else Registered(h) && Enabled(h, actions[0]) && Run(Step(h, actions[0]), actions[1..], t)
  }

  // ---------------------------------------------------------------- The invariant

  /** Up to where the events a subscription was given go. */
  function Upto(sub: Subscription, recorded: nat): nat {
    if sub.open then recorded else sub.until
  }

  /** What was read and what is buffered are, in order, the matching events
      recorded from the subscription's start to its end; and it fell behind only
      when the next one matched too and found the buffer full. */
  predicate Exact(sub: Subscription, recorded: seq<Event>) {
    var upto := Upto(sub, |recorded|);
    && sub.from <= upto <= |recorded| && |sub.buffer| <= BUFFER
    && sub.read + sub.buffer == Picked(sub.filter, recorded[sub.from..upto])
    && (!sub.open && sub.err.FellBehind? ==> sub.until < |recorded| && sub.filter.Matches(recorded[sub.until]))
  }

  predicate Inv(h: Hub) {
    && Registered(h)
    && (h.closed ==> h.registered == {})
    && forall id :: id in h.subs ==> Exact(h.subs[id], h.recorded)
  }

  lemma PickedAppend(filter: Filter, events: seq<Event>, e: Event)
    ensures Picked(filter, events + [e]) == Picked(filter, events) + (if filter.Matches(e) then [e] else [])
  {
    assert (events + [e])[..|events|] == events;
  }

  lemma ClosedStaysExact(sub: Subscription, recorded: seq<Event>, e: Event)
    requires Exact(sub, recorded) && !sub.open
    ensures Exact(sub, recorded + [e])
  {
    assert (recorded + [e])[sub.from..sub.until] == recorded[sub.from..sub.until];
  }

  lemma OfferStaysExact(sub: Subscription, recorded: seq<Event>, e: Event)
    requires Exact(sub, recorded) && sub.open
    ensures Exact(Offer(sub, e, |recorded|), recorded + [e])
  {
    hide Picked;
    var n := |recorded|;
    assert (recorded + [e])[sub.from..n] == recorded[sub.from..n];
    assert (recorded + [e])[sub.from..n + 1] == recorded[sub.from..n] + [e];
    PickedAppend(sub.filter, recorded[sub.from..n], e);
  }

  lemma OfferKeepsRegistered(h: Hub, e: Event, now: int)
    requires Registered(h)
    ensures Registered(AfterRecord(h, e, now))
  {
    hide Offer, Trim;
  }

  lemma RecordKeeps(h: Hub, e: Event, now: int)
    requires Inv(h)
    ensures Inv(AfterRecord(h, e, now))
  {
    hide Exact, Offer, Trim;
    var t := AfterRecord(h, e, now);
    OfferKeepsRegistered(h, e, now);
    forall id | id in h.subs
      ensures Exact(t.subs[id], t.recorded)
    {
      if id in h.registered {
        OfferStaysExact(h.subs[id], h.recorded, e);
      } else {
        ClosedStaysExact(h.subs[id], h.recorded, e);
      }
    }
  }

  lemma ReceiveStaysExact(sub: Subscription, recorded: seq<Event>)
    requires Exact(sub, recorded) && sub.buffer != []
    ensures Exact(sub.(buffer := sub.buffer[1..], read := sub.read + [sub.buffer[0]]), recorded)
  {
    assert sub.read + [sub.buffer[0]] + sub.buffer[1..] == sub.read + sub.buffer;
    hide Picked;
  }

  lemma EndStaysExact(sub: Subscription, recorded: seq<Event>)
    requires Exact(sub, recorded) && sub.open
    ensures Exact(End(sub, Ended, |recorded|), recorded)
  {
    hide Picked;
  }

  lemma SubscribeKeeps(h: Hub, id: nat, filter: Filter)
    requires Inv(h) && id !in h.subs
    ensures Inv(AfterSubscribe(h, id, filter))
  {
    assert Exact(NewSubscription(h, filter), h.recorded) by {
      assert h.recorded[|h.recorded|..|h.recorded|] == [];
    }
    hide Exact, NewSubscription;
    assert NewSubscription(h, filter).open == !h.closed by { NewIsOpen(h, filter); }
  }

  lemma NewIsOpen(h: Hub, filter: Filter)
    ensures NewSubscription(h, filter).open == !h.closed
  {
  }

  lemma ReceiveKeeps(h: Hub, id: nat)
    requires Inv(h) && id in h.subs && h.subs[id].buffer != []
    ensures Inv(AfterReceive(h, id))
  {
    ReceiveStaysExact(h.subs[id], h.recorded);
    hide Exact;
  }

  lemma EndKeeps(h: Hub, id: nat)
    requires Inv(h) && id in h.subs
    ensures Inv(AfterEnd(h, id))
  {
    if id in h.registered {
      EndStaysExact(h.subs[id], h.recorded);
    }
    hide Exact;
  }

  lemma CloseLogKeeps(h: Hub)
    requires Inv(h)
    ensures Inv(AfterCloseLog(h))
  {
    forall id | id in h.registered
      ensures Exact(End(h.subs[id], Ended, |h.recorded|), h.recorded)
    {
      EndStaysExact(h.subs[id], h.recorded);
    }
    hide Exact;
  }

  lemma StepKeeps(h: Hub, a: Action)
    requires Inv(h) && Enabled(h, a)
    ensures Inv(Step(h, a))
  {
    hide Inv, AfterRecord, AfterSubscribe, AfterReceive, AfterEnd, AfterCloseLog;
    match a
    case Record(e, now) => RecordKeeps(h, e, now);
    case Subscribe(id, filter) => SubscribeKeeps(h, id, filter);
    case Receive(id) => ReceiveKeeps(h, id);
    case CloseSubscription(id) => EndKeeps(h, id);
    case CloseLog => CloseLogKeeps(h);
  }

  lemma {:induction false} RunKeeps(h: Hub, actions: seq<Action>, t: Hub)
    requires Inv(h) && Run(h, actions, t)
    ensures Inv(t)
    decreases |actions|
  {
    hide Inv, Step;
    if actions != [] {
      StepKeeps(h, actions[0]);
      RunKeeps(Step(h, actions[0]), actions[1..], t);
    }
  }

  // ---------------------------------------------------------------- Main results

  /** What a subscription is does not change, and recording only appends. */
  predicate Continues(h: Hub, t: Hub) {
    && h.recorded <= t.recorded
    && forall id :: id in h.subs ==>
         && id in t.subs && t.subs[id].filter == h.subs[id].filter && t.subs[id].from == h.subs[id].from
         && (!h.subs[id].open ==>
               && !t.subs[id].open && t.subs[id].err == h.subs[id].err
               && t.subs[id].until == h.subs[id].until)
  }

  lemma StepContinues(h: Hub, a: Action)
    requires Registered(h) && Enabled(h, a)
    ensures Continues(h, Step(h, a))
  {
    hide Trim;
  }

  lemma {:induction false} RunContinues(h: Hub, actions: seq<Action>, t: Hub)
    requires Inv(h) && Run(h, actions, t)
    ensures Continues(h, t)
    decreases |actions|
  {
    hide Inv, Step;
    if actions != [] {
      var m := Step(h, actions[0]);
      assert Registered(h);
      StepContinues(h, actions[0]);
      StepKeeps(h, actions[0]);
      RunContinues(m, actions[1..], t);
    }
  }

  lemma ValuesAppend(events: seq<Entry>, i: nat)
    requires i < |events|
    ensures Values(events[..i + 1]) == Values(events[..i]) + [events[i].event]
  {
  }

  lemma {:induction false} PickedConcat(filter: Filter, a: seq<Event>, b: seq<Event>)
    ensures Picked(filter, a + b) == Picked(filter, a) + Picked(filter, b)
    decreases |b|
  {
    if b == [] {
      assert a + b == a;
    } else {
      var front, e := b[..|b| - 1], b[|b| - 1];
      assert b == front + [e] && a + b == (a + front) + [e];
      hide Picked;
      PickedAppend(filter, a + front, e);
      PickedAppend(filter, front, e);
      PickedConcat(filter, a, front);
    }
  }

  /** How many of the matching events the limit leaves out. */
  function Cut(events: seq<Entry>, filter: Filter, limit: nat): nat {
    |Picked(filter, Values(events))| - |List(events, filter, limit)|
  }

  /** The limit gives the longest end of the matching events that is within it, and
      no limit all of them. */
  lemma LimitKeepsTheLast(events: seq<Entry>, filter: Filter, limit: nat)
    ensures var all, out := Picked(filter, Values(events)), List(events, filter, limit);
            && out == all[Cut(events, filter, limit)..]
            && (limit == 0 ==> out == all)
            && (limit > 0 ==>
                  && |out| <= limit
                  && forall d :: 0 <= d <= |all| && |all[d..]| <= limit ==> |all[d..]| <= |out|)
  {
  }

  /** No gap and no overlap: the history a subscriber is given, then what it
      reads and what waits in its channel, are the matching events of the list
      kept when it subscribed, but for those the limit leaves out, followed by all
      recorded until it ended. */
  lemma NoGapNoOverlap(h: Hub, id: nat, filter: Filter, limit: nat, actions: seq<Action>, t: Hub)
    requires Inv(h) && id !in h.subs && Run(Step(h, Subscribe(id, filter)), actions, t)
    ensures id in t.subs
    ensures var sub := t.subs[id];
            var upto := Upto(sub, |t.recorded|);
            && |h.recorded| <= upto <= |t.recorded|
            && var all := Picked(filter, Values(h.events) + t.recorded[|h.recorded|..upto]);
               && Cut(h.events, filter, limit) <= |all|
               && List(h.events, filter, limit) + sub.read + sub.buffer == all[Cut(h.events, filter, limit)..]
  {
    hide Run, Inv, Step, Picked, List, Upto;
    SinceThen(h, id, filter, actions, t);
    var sub := t.subs[id];
    var kept, since := Picked(filter, Values(h.events)), t.recorded[|h.recorded|..Upto(sub, |t.recorded|)];
    LimitKeepsTheLast(h.events, filter, limit);
    CutFront(kept, Picked(filter, since), Cut(h.events, filter, limit));
    PickedConcat(filter, Values(h.events), since);
    var history := List(h.events, filter, limit);
    assert history + sub.read + sub.buffer == history + (sub.read + sub.buffer);
  }

  /** What was read and what waits is what matches of all recorded since. */
  lemma SinceThen(h: Hub, id: nat, filter: Filter, actions: seq<Action>, t: Hub)
    requires Inv(h) && id !in h.subs && Run(Step(h, Subscribe(id, filter)), actions, t)
    ensures id in t.subs
    ensures var sub := t.subs[id];
            var upto := Upto(sub, |t.recorded|);
            && |h.recorded| <= upto <= |t.recorded|
            && sub.read + sub.buffer == Picked(filter, t.recorded[|h.recorded|..upto])
  {
    var m := Step(h, Subscribe(id, filter));
    StepKeeps(h, Subscribe(id, filter));
    RunKeeps(m, actions, t);
    RunContinues(m, actions, t);
    var sub := t.subs[id];
    assert m.subs[id].filter == filter && m.subs[id].from == |h.recorded|;
    assert Exact(sub, t.recorded);
    hide Run, Inv, Picked, Continues;
  }

  lemma CutFront(a: seq<Event>, b: seq<Event>, d: nat)
    requires d <= |a|
    ensures a[d..] + b == (a + b)[d..]
  {
  }

  /** A step makes a subscription fall behind exactly when it records a matching
      event and finds the channel full; what was delivered is left as it was. */
  lemma FallsBehindOnlyWhenFull(h: Hub, a: Action, id: nat)
    requires Inv(h) && Enabled(h, a) && id in h.registered
    ensures var sub, sub' := h.subs[id], Step(h, a).subs[id];
            !sub'.open && sub'.err.FellBehind? <==>
              a.Record? && sub.filter.Matches(a.event) && |sub.buffer| == 256
    ensures var sub, sub' := h.subs[id], Step(h, a).subs[id];
            !sub'.open && sub'.err.Ended? <==> a == CloseSubscription(id) || a == CloseLog
    ensures var sub, sub' := h.subs[id], Step(h, a).subs[id];
            !sub'.open ==> sub'.read == sub.read && sub'.buffer == sub.buffer && id !in Step(h, a).registered
  {
    hide Picked;
    assert Exact(h.subs[id], h.recorded);
  }

  /** A subscription to an open log is open; one to a closed log has ended. */
  lemma SubscribeOpens(h: Hub, id: nat, filter: Filter)
    requires Registered(h) && id !in h.subs
    ensures var t := Step(h, Subscribe(id, filter));
            && id in t.subs && t.subs[id].filter == filter && t.subs[id].read + t.subs[id].buffer == []
            && (t.subs[id].open <==> !h.closed) && t.subs[id].err.Ended?
            && t == h.(subs := t.subs, registered := t.registered)
            && forall other :: other in h.subs ==> other in t.subs && t.subs[other] == h.subs[other]
  {
  }

  /** What Record comes to, once each registered subscription was offered the event. */
  lemma OfferedIs(h: Hub, e: Event, now: int, subs: map<nat, Subscription>, registered: set<nat>)
    requires Registered(h) && Registered(h.(subs := subs, registered := registered))
    requires subs.Keys == h.subs.Keys && registered <= h.registered
    requires forall id :: id in h.subs ==>
               subs[id] == if id in h.registered then Offer(h.subs[id], e, |h.recorded|) else h.subs[id]
    ensures AfterRecord(h, e, now) ==
            h.(events := Trim(h.limits, h.events + [Entry(|h.recorded| + 1, e)], now), subs := subs,
               registered := registered, recorded := h.recorded + [e])
  {
    hide Trim, Offer;
    assert subs == AfterRecord(h, e, now).subs;
    assert registered == AfterRecord(h, e, now).registered;
  }

  // ---------------------------------------------------------------- The object

  /** The log's subscription map and the subscriptions, as the source updates
      them. The list of recorded events is the model's, for the history fields. */
  class Broadcaster {
    const limits: Limits
    var events: seq<Entry>
    var closed: bool
    var registered: set<nat>
    var subs: map<nat, Subscription>
    var recorded: seq<Event>

    ghost function View(): Hub
      reads this
    {
      Hub(limits, events, closed, registered, subs, recorded)
    }

    constructor (limits: Limits, events: seq<Entry>)
      ensures View() == Hub(limits, events, false, {}, map[], []) && Inv(View())
    {
      this.limits, this.events, closed, registered, subs, recorded := limits, events, false, {}, map[], [];
    }

    /** end: only a registered subscription ends, and only once. */
    method Finish(id: nat, err: Reason)
      requires Registered(View()) && id in subs
      modifies `registered, `subs
      ensures registered == old(registered) - {id}
      ensures subs == if id in old(registered) then old(subs)[id := End(old(subs)[id], err, |recorded|)] else old(subs)
      ensures Registered(View())
    {
      if id !in registered {
        return;
      }
      registered := registered - {id};
      subs := subs[id := subs[id].(open := false, err := err, until := |recorded|)];
    }

    /** send: pass e on, or end the subscription if its channel is full. */
    method Deliver(id: nat, e: Event)
      requires Registered(View()) && id in registered
      modifies `registered, `subs
      ensures subs == old(subs)[id := Send(old(subs)[id], e, |recorded|)]
      ensures registered == if subs[id].open then old(registered) else old(registered) - {id}
      ensures Registered(View())
    {
      if |subs[id].buffer| < BUFFER {
        subs := subs[id := subs[id].(buffer := subs[id].buffer + [e])];
      } else {
        Finish(id, FellBehind);
      }
    }

    /** Record's loop over the subscription map. */
    method OfferAll(e: Event)
      requires Registered(View())
      modifies `registered, `subs
      ensures Registered(View()) && subs.Keys == old(subs).Keys && registered <= old(registered)
      ensures forall id :: id in old(subs) ==>
        subs[id] == if id in old(registered) then Offer(old(subs)[id], e, |recorded|) else old(subs)[id]
    {
      var todo := registered;
      while todo != {}
        invariant Registered(View()) && todo <= registered <= old(registered) && subs.Keys == old(subs).Keys
        invariant forall id :: id in old(subs) ==>
          subs[id] == if id in old(registered) && id !in todo
                      then Offer(old(subs)[id], e, |recorded|) else old(subs)[id]
        decreases |todo|
      {
        var id :| id in todo;
        todo := todo - {id};
        if subs[id].filter.Matches(e) {
          Deliver(id, e);
        }
      }
    }

    method Record(e: Event, now: int)
      requires Inv(View())
      modifies this
      ensures View() == AfterRecord(old(View()), e, now) && Inv(View())
    {
      hide Exact, Trim, Offer, AfterRecord;
      ghost var h := View();
      OfferAll(e);
      OfferedIs(h, e, now, subs, registered);
      events := Trim(limits, events + [Entry(|recorded| + 1, e)], now);
      recorded := recorded + [e];
      RecordKeeps(h, e, now);
    }

    /** list: the loop over the kept events. */
    method ListMatching(filter: Filter, limit: nat) returns (out: seq<Event>)
      ensures out == List(events, filter, limit)
    {
      out := [];
      for i := 0 to |events|
        invariant out == Picked(filter, Values(events[..i]))
      {
        ValuesAppend(events, i);
        PickedAppend(filter, Values(events[..i]), events[i].event);
        if filter.Matches(events[i].event) {
          out := out + [events[i].event];
        }
      }
      assert events[..|events|] == events;
      if limit > 0 && |out| > limit {
        out := out[|out| - limit..];
      }
    }

    /** The history so far, and a subscription to what is recorded after it. */
    method Subscribe(id: nat, filter: Filter, limit: nat) returns (history: seq<Event>)
      requires Inv(View()) && id !in subs
      modifies `registered, `subs
      ensures View() == AfterSubscribe(old(View()), id, filter) && Inv(View())
      ensures history == List(events, filter, limit)
    {
      SubscribeKeeps(View(), id, filter);
      hide Inv, Exact, List;
      subs := subs[id := Subscription(filter, [], !closed, Ended, [], |recorded|, |recorded|)];
      if !closed {
        registered := registered + {id};
      }
      history := ListMatching(filter, limit);
    }

    method CloseSubscription(id: nat)
      requires Inv(View()) && id in subs
      modifies `registered, `subs
      ensures View() == AfterEnd(old(View()), id) && Inv(View())
    {
      EndKeeps(View(), id);
      ghost var h := View();
      Finish(id, Ended);
      assert registered == AfterEnd(h, id).registered;
    }

    /** Close's loop over the subscription map. */
    method FinishAll()
      requires Registered(View())
      modifies `registered, `subs
      ensures registered == {} && subs.Keys == old(subs).Keys
      ensures forall id :: id in old(subs) ==>
        subs[id] == if id in old(registered) then End(old(subs)[id], Ended, |recorded|) else old(subs)[id]
    {
      while registered != {}
        invariant Registered(View()) && registered <= old(registered) && subs.Keys == old(subs).Keys
        invariant forall id :: id in old(subs) ==>
          subs[id] == if id in old(registered) && id !in registered
                      then End(old(subs)[id], Ended, |recorded|) else old(subs)[id]
        decreases |registered|
      {
        var id :| id in registered;
        Finish(id, Ended);
      }
    }

    /** Only the first Close does anything. */
    method Close()
      requires Inv(View())
      modifies this
      ensures View() == if old(closed) then old(View()) else AfterCloseLog(old(View()))
      ensures Inv(View())
    {
      hide Exact;
      if closed {
        return;
      }
      ghost var h := View();
      FinishAll();
      closed := true;
      CloseLogKeeps(h);
      assert subs == AfterCloseLog(h).subs;
    }
  }
}
