/** How GetEvents streams events to a client
    (internal/grpcserver/events_handler.go): the history in batches, then each
    new event on its own. */
module History {
  import opened Wrappers
  import opened Events
  import opened Subscriptions

  /** eventBatchSize. */
  const BATCH := 500

  datatype Response = Response(events: seq<Event>, caughtUp: bool)

  function Sent(responses: seq<Response>): seq<Event> {
    if responses == [] then [] else Sent(responses[..|responses| - 1]) + responses[|responses| - 1].events
  }

  /** Every batch before the last is full and not the last, so a client can tell
      a pause from the end of the history. */
  predicate FullBatches(responses: seq<Response>) {
    forall i :: 0 <= i < |responses| ==> |responses[i].events| == BATCH && !responses[i].caughtUp
  }

  /** A whole history: full batches and a last one marked caught up. */
  predicate WholeHistory(responses: seq<Response>, history: seq<Event>) {
    && responses != [] && Sent(responses) == history
    && FullBatches(responses[..|responses| - 1])
    && responses[|responses| - 1].caughtUp && |responses[|responses| - 1].events| <= BATCH
  }

  /** How many batches a history of so many events takes; an empty one takes one. */
  function Batches(n: nat): (count: nat)
    ensures count > 0
  {
    if n <= BATCH then 1 else 1 + Batches(n - BATCH)
  }

  /** sendHistory. sendOk(n) is whether the stream takes its nth response. */
  method SendHistory(history: seq<Event>, sendOk: nat -> bool) returns (responses: seq<Response>, ok: bool)
    ensures ok ==> WholeHistory(responses, history) && |responses| == Batches(|history|)
    ensures !ok ==> FullBatches(responses) && Sent(responses) <= history
    ensures !ok ==> |responses| < Batches(|history|) && !sendOk(|responses|)
    ensures forall n :: 0 <= n < |responses| ==> sendOk(n)
  {
    hide Sent, FullBatches, WholeHistory;
    NothingSent();
    responses := [];
    var rest := history;
    ghost var sent := 0;
    while true
      invariant sent <= |history| && rest == history[sent..]
      invariant FullBatches(responses) && Sent(responses) == history[..sent]
      invariant |responses| + Batches(|rest|) == Batches(|history|)
      invariant forall n :: 0 <= n < |responses| ==> sendOk(n)
      decreases |rest|
    {
      var n := if |rest| < BATCH then |rest| else BATCH;
      var response := Response(rest[..n], n == |rest|);
      SplitAt(history, sent, n);
      if !sendOk(|responses|) {
        return responses, false;
      }
      if response.caughtUp {
        LastBatch(responses, response, history);
        return responses + [response], true;
      }
      FullBatch(responses, response);
      responses, rest, sent := responses + [response], rest[n..], sent + n;
    }
  }

  lemma SplitAt(history: seq<Event>, sent: nat, n: nat)
    requires sent + n <= |history|
    ensures history[..sent] + history[sent..][..n] == history[..sent + n] && history[sent..][n..] == history[sent + n..]
    ensures history[..|history|] == history
  {
  }

  lemma NothingSent()
    ensures Sent([]) == [] && FullBatches([])
  {
  }

  lemma FullBatch(responses: seq<Response>, r: Response)
    requires FullBatches(responses) && |r.events| == BATCH && !r.caughtUp
    ensures FullBatches(responses + [r]) && Sent(responses + [r]) == Sent(responses) + r.events
  {
    SentAppend(responses, r);
  }

  lemma LastBatch(responses: seq<Response>, r: Response, history: seq<Event>)
    requires FullBatches(responses) && |r.events| <= BATCH && r.caughtUp && Sent(responses) + r.events == history
    ensures WholeHistory(responses + [r], history)
  {
    SentAppend(responses, r);
    assert (responses + [r])[..|responses|] == responses;
  }

  lemma NoneIsMarked(responses: seq<Response>)
    requires FullBatches(responses)
    ensures forall n :: 0 <= n < |responses| ==> !responses[n].caughtUp
  {
  }

  lemma LastIsMarked(responses: seq<Response>, history: seq<Event>)
    requires WholeHistory(responses, history)
    ensures Sent(responses) == history
    ensures forall n :: 0 <= n < |responses| ==> (responses[n].caughtUp <==> n == |responses| - 1)
  {
    var front := responses[..|responses| - 1];
    NoneIsMarked(front);
    assert forall n :: 0 <= n < |front| ==> front[n] == responses[n];
  }

  lemma SentAppend(responses: seq<Response>, r: Response)
    ensures Sent(responses + [r]) == Sent(responses) + r.events
  {
    assert (responses + [r])[..|responses|] == responses;
  }

  // ---------------------------------------------------------------- Following

  /** What the follow loop's select gives at one turn: an event of the subscription,
      that its channel is closed and why, or that the client has gone. */
  datatype Turn = Got(event: Event) | Closed(err: Reason) | ClientGone

  /** What GetEvents returns; Waiting is that it has not returned yet. */
  datatype Outcome = Waiting | ReturnsNil | ReturnsFellBehind | SendFailed

  /** The events received before the loop ends. */
  function Received(turns: seq<Turn>): seq<Event> {
    if turns == [] || !turns[0].Got? then [] else [turns[0].event] + Received(turns[1..])
  }

  /** The turn that ends the loop, if no send fails. */
  function Last(turns: seq<Turn>): Option<Turn> {
    if turns == [] then None else if turns[0].Got? then Last(turns[1..]) else Some(turns[0])
  }

  function EndOf(turns: seq<Turn>): Outcome {
    match Last(turns)
    case None => Waiting
    case Some(turn) => if turn == Closed(FellBehind) then ReturnsFellBehind else ReturnsNil
  }

  /** The loop takes the events up to the first turn that is none, and ends as that one
      says; while all are events it waits for more. */
  lemma {:induction false} LoopEnds(turns: seq<Turn>, n: nat)
    requires n <= |turns| && (forall i :: 0 <= i < n ==> turns[i].Got?) && (n < |turns| ==> !turns[n].Got?)
    ensures |Received(turns)| == n && forall i :: 0 <= i < n ==> Received(turns)[i] == turns[i].event
    ensures EndOf(turns) == Waiting <==> n == |turns|
    ensures EndOf(turns) == ReturnsFellBehind <==> n < |turns| && turns[n] == Closed(FellBehind)
    ensures EndOf(turns) == ReturnsNil <==> n < |turns| && turns[n] in {ClientGone, Closed(Ended)}
  {
    if n > 0 {
      LoopEnds(turns[1..], n - 1);
      assert n < |turns| ==> turns[1..][n - 1] == turns[n];
      assert EndOf(turns) == EndOf(turns[1..]);
    } else if n < |turns| {
      match turns[n]
      case Closed(err) => match err { case Ended => case FellBehind => }
      case ClientGone =>
    }
  }

  /** What a follower's stream comes to: all of what was received was sent after the
      history, and the loop ended as its turns say; or a send failed, and only the
      last event received was not sent. */
  ghost predicate Streamed(history: seq<Event>, turns: seq<Turn>, responses: seq<Response>, outcome: Outcome,
                           received: seq<Event>) {
    if outcome.SendFailed? then
      || (received == [] && FullBatches(responses) && Sent(responses) <= history)
      || (&& received != [] && received <= Received(turns)
          && Sent(responses) == history + received[..|received| - 1])
    else
      outcome == EndOf(turns) && received == Received(turns) && Sent(responses) == history + received
  }

  /** GetEvents of a request that follows, with the history and the subscription it
      was given: the turns of the select, and whether the stream takes its nth
      response. The events received are those taken from the channel. */
  method GetEvents(history: seq<Event>, turns: seq<Turn>, sendOk: nat -> bool)
      returns (responses: seq<Response>, outcome: Outcome, received: seq<Event>)
    ensures Streamed(history, turns, responses, outcome, received)
    ensures forall n :: 0 <= n < |responses| ==> sendOk(n)
    ensures outcome.SendFailed? ==> !sendOk(|responses|) && |responses| < Batches(|history|) + |Received(turns)|
    ensures !outcome.SendFailed? ==> |responses| == Batches(|history|) + |Received(turns)|
    ensures forall n :: 0 <= n < |responses| ==> (responses[n].caughtUp <==> n == Batches(|history|) - 1)
  {
    hide FullBatches, WholeHistory, Sent;
    var ok;
    responses, ok := SendHistory(history, sendOk);
    if !ok {
      NoneIsMarked(responses);
      return responses, SendFailed, [];
    }
    LastIsMarked(responses, history);
    hide Batches;
    received := [];
    var i := 0;
    while i < |turns|
      invariant i <= |turns| && received + Received(turns[i..]) == Received(turns) && Last(turns[i..]) == Last(turns)
      invariant Sent(responses) == history + received && |responses| == Batches(|history|) + |received|
      invariant forall n :: 0 <= n < |responses| ==> sendOk(n)
      invariant forall n :: 0 <= n < |responses| ==> (responses[n].caughtUp <==> n == Batches(|history|) - 1)
    {
      assert turns[i..][1..] == turns[i + 1..];
      match turns[i] {
        case ClientGone => return responses, ReturnsNil, received;
        case Closed(err) =>
          if err.FellBehind? {
            return responses, ReturnsFellBehind, received;
          }
          return responses, ReturnsNil, received;
        case Got(e) =>
          received := received + [e];
          if !sendOk(|responses|) {
            return responses, SendFailed, received;
          }
          SentAppend(responses, Response([e], false));
          responses := responses + [Response([e], false)];
      }
      i := i + 1;
    }
    return responses, Waiting, received;
  }

  /** The turns are those of this subscription: its events, and its closed channel
      seen only once it has ended and given all it held. */
  ghost predicate TurnsOf(sub: Subscription, turns: seq<Turn>, received: seq<Event>) {
    && sub.read == received
    && (received == Received(turns) && Last(turns).Some? && Last(turns).value.Closed? ==>
          !sub.open && sub.buffer == [] && sub.err == Last(turns).value.err)
  }

  /** End to end, for any limit: what a follower was sent, the one event a failed send
      lost, and what waits in its channel, are the matching events kept when it
      subscribed, but for those the limit leaves out, and the matching ones recorded
      since, in order. It is told that it fell behind exactly if its subscription
      did, it has seen that, and no send failed; and then it was sent all of them up
      to the one that found its channel full. */
  lemma FollowerSeesEverything(h: Hub, id: nat, filter: Filter, limit: nat, actions: seq<Action>, t: Hub,
                               turns: seq<Turn>, responses: seq<Response>, outcome: Outcome, received: seq<Event>)
    requires Inv(h) && id !in h.subs && Run(Step(h, Subscribe(id, filter)), actions, t) && id in t.subs
    requires Streamed(List(h.events, filter, limit), turns, responses, outcome, received)
    requires TurnsOf(t.subs[id], turns, received)
    ensures outcome.ReturnsFellBehind? <==>
            && !outcome.SendFailed? && Last(turns).Some? && Last(turns).value.Closed?
            && t.subs[id].err.FellBehind?
    ensures var sub := t.subs[id];
            var upto := Upto(sub, |t.recorded|);
            && |h.recorded| <= upto <= |t.recorded|
            && var all := Picked(filter, Values(h.events) + t.recorded[|h.recorded|..upto]);
               && Cut(h.events, filter, limit) <= |all|
               && var due := all[Cut(h.events, filter, limit)..];
                  && (!outcome.SendFailed? ==> Sent(responses) + sub.buffer == due)
                  && (outcome.SendFailed? && received == [] ==> Sent(responses) <= due)
                  && (outcome.SendFailed? && received != [] ==>
                        Sent(responses) + [received[|received| - 1]] + sub.buffer == due)
                  && (outcome.ReturnsFellBehind? ==>
                        Sent(responses) == due && upto < |t.recorded| && filter.Matches(t.recorded[upto]))
  {
    FellBehindAt(h, id, filter, actions, t);
    hide Inv, Run, Step, List, Picked, Sent, Upto, Received, Last;
    NoGapNoOverlap(h, id, filter, limit, actions, t);
    var history, buffer := List(h.events, filter, limit), t.subs[id].buffer;
    if outcome.SendFailed? && received != [] {
      LastReceived(history, received, Sent(responses));
    } else if outcome.SendFailed? {
      assert Sent(responses) <= history + received + buffer;
    }
  }

  lemma LastReceived(history: seq<Event>, received: seq<Event>, sent: seq<Event>)
    requires received != [] && sent == history + received[..|received| - 1]
    ensures sent + [received[|received| - 1]] == history + received
  {
    assert received == received[..|received| - 1] + [received[|received| - 1]];
  }

  /** A subscription that fell behind did so at a matching event. */
  lemma FellBehindAt(h: Hub, id: nat, filter: Filter, actions: seq<Action>, t: Hub)
    requires Inv(h) && id !in h.subs && Run(Step(h, Subscribe(id, filter)), actions, t) && id in t.subs
    ensures var sub := t.subs[id];
            !sub.open && sub.err.FellBehind? ==>
              Upto(sub, |t.recorded|) < |t.recorded| && filter.Matches(t.recorded[Upto(sub, |t.recorded|)])
  {
    var m := Step(h, Subscribe(id, filter));
    StepKeeps(h, Subscribe(id, filter));
    RunKeeps(m, actions, t);
    RunContinues(m, actions, t);
    assert Exact(t.subs[id], t.recorded) && m.subs[id].filter == filter;
    hide Run, Inv, Picked, Continues;
  }
}
