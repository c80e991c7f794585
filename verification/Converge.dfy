/** converge (internal/cli/compose_up.go): one goroutine a service brings the
    services up at once, each waiting for those it depends on. A run is any
    interleaving of the goroutines' steps; what waiting for a condition and
    bringing a service up answer is up to the daemon. */
module Converge {
  import opened Wrappers
  import opened Dependencies

  /** Why a service did not come up. */
  datatype Failure =
    | DependencyDown(service: string)   // "was not started: X did not come up"
    | ConditionUnmet(service: string)   // waiting for X's condition failed
    | UpFailed                          // bringing it up failed

  datatype Outcome = CameUp | Failed(failure: Failure)

  /** Where a service's goroutine is. */
  datatype Stage =
    | Before(i: nat)     // about to wait for the ith dependency to be done
    | Awaiting(i: nat)   // the ith came up; waiting for its condition
    | Starting           // in up
    | Finished(outcome: Outcome)

  /** The goroutines, and what has happened: the services up was called for, and
      the waits that ended well, each by its service and the dependency's index. */
  datatype State = State(stages: map<string, Stage>, called: set<string>, met: set<(string, nat)>)

  datatype Action =
    | See(name: string)
    | Wait(name: string, ok: bool)
    | Call(name: string)
    | Return(name: string, ok: bool)

  function Begin(order: seq<string>): State {
    State(map a | a in order :: Before(0), {}, {})
  }

  /** A dependency is looked up among the services being converged: one that is
      not there would be a nil dereference. */
  predicate Known(g: Graph, s: State) {
    forall a, i :: a in s.stages && a in g && 0 <= i < |g[a]| ==> g[a][i].service in s.stages
  }

  predicate Enabled(g: Graph, s: State, a: Action)
    requires Known(g, s)
  {
    && a.name in s.stages && a.name in g
    && var stage, deps := s.stages[a.name], g[a.name];
       match a
       case See(_) => stage.Before? && stage.i < |deps| && s.stages[deps[stage.i].service].Finished?
       case Wait(_, ok) => stage.Awaiting? && stage.i < |deps| && (deps[stage.i].condition.Started? ==> ok)
       case Call(_) => stage == Before(|deps|)
       case Return(_, _) => stage.Starting?
  }

  function Next(g: Graph, s: State, a: Action): Stage
    requires Known(g, s) && Enabled(g, s, a)
  {
    var stage, deps := s.stages[a.name], g[a.name];
    match a
    case See(_) =>
      var dep := deps[stage.i].service;
      if s.stages[dep].outcome.Failed? then Finished(Failed(DependencyDown(dep))) else Awaiting(stage.i)
    case Wait(_, ok) => if ok then Before(stage.i + 1) else Finished(Failed(ConditionUnmet(deps[stage.i].service)))
    case Call(_) => Starting
    case Return(_, ok) => Finished(if ok then CameUp else Failed(UpFailed))
  }

  function Step(g: Graph, s: State, a: Action): State
    requires Known(g, s) && Enabled(g, s, a)
  {
    State(s.stages[a.name := Next(g, s, a)],
          if a.Call? then s.called + {a.name} else s.called,
          if a.Wait? && a.ok then s.met + {(a.name, s.stages[a.name].i)} else s.met)
  }

  predicate Run(g: Graph, s: State, actions: seq<Action>, t: State)
    decreases |actions|
  {
    if actions == [] then s == t
    else Known(g, s) && Enabled(g, s, actions[0]) && Run(g, Step(g, s, actions[0]), actions[1..], t)
  }

  // ---------------------------------------------------------------- The invariant

  /** The service's ith dependency came up, and its own wait for what it wants of
      it ended well. */
  predicate Ready(s: State, name: string, deps: seq<Dependency>, i: nat)
    requires i < |deps|
  {
    deps[i].service in s.stages && s.stages[deps[i].service] == Finished(CameUp) && (name, i) in s.met
  }

  predicate ReadyThrough(s: State, name: string, deps: seq<Dependency>, n: nat) {
    forall i :: 0 <= i < n <= |deps| ==> Ready(s, name, deps, i)
  }

  predicate Sound(s: State, name: string, deps: seq<Dependency>)
    requires name in s.stages
  {
    && (name in s.called ==> ReadyThrough(s, name, deps, |deps|))
    && match s.stages[name]
       case Before(i) => i <= |deps| && ReadyThrough(s, name, deps, i) && name !in s.called
       case Awaiting(i) =>
         && i < |deps| && ReadyThrough(s, name, deps, i) && name !in s.called
         && deps[i].service in s.stages && s.stages[deps[i].service] == Finished(CameUp)
       case Starting => name in s.called
       case Finished(CameUp) => name in s.called
       case Finished(Failed(UpFailed)) => name in s.called
       case Finished(Failed(ConditionUnmet(_))) => name !in s.called
       case Finished(Failed(DependencyDown(d))) =>
         name !in s.called && d in s.stages && s.stages[d].Finished? && s.stages[d].outcome.Failed?
         && exists i :: 0 <= i < |deps| && deps[i].service == d
  }

  ghost predicate Inv(g: Graph, order: seq<string>, s: State) {
    && Distinct(order) && DependenciesFirst(g, order)
    && s.stages.Keys == (set a | a in order) && s.called <= s.stages.Keys
    && forall a :: a in order ==> a in g && Sound(s, a, g[a])
  }

  lemma InvKnows(g: Graph, order: seq<string>, s: State)
    requires Inv(g, order, s)
    ensures Known(g, s)
  {
    forall a, i | a in s.stages && a in g && 0 <= i < |g[a]|
      ensures g[a][i].service in s.stages
    {
      var k :| 0 <= k < |order| && order[k] == a;
      assert DependsWithin(g, order[k], order[..k]);
    }
  }

  /** What other goroutines do leaves what holds of one: outcomes do not change,
      and conditions met stay met. */
  lemma OthersKeepSound(g: Graph, s: State, a: Action, name: string, deps: seq<Dependency>)
    requires Known(g, s) && Enabled(g, s, a) && name in s.stages && name != a.name && Sound(s, name, deps)
    ensures Sound(Step(g, s, a), name, deps)
  {
    var t := Step(g, s, a);
    assert !s.stages[a.name].Finished?;
    assert forall i: nat :: i < |deps| && Ready(s, name, deps, i) ==> Ready(t, name, deps, i);
  }

  lemma OwnStepKeepsSound(g: Graph, s: State, a: Action)
    requires Known(g, s) && Enabled(g, s, a) && Sound(s, a.name, g[a.name])
    ensures Sound(Step(g, s, a), a.name, g[a.name])
  {
    var t, deps := Step(g, s, a), g[a.name];
    assert forall i: nat :: i < |deps| && Ready(s, a.name, deps, i) ==> Ready(t, a.name, deps, i);
  }

  lemma StepKeeps(g: Graph, order: seq<string>, s: State, a: Action)
    requires Inv(g, order, s) && Known(g, s) && Enabled(g, s, a)
    ensures Inv(g, order, Step(g, s, a)) && Known(g, Step(g, s, a))
  {
    hide DependenciesFirst, Sound;
    var t := Step(g, s, a);
    forall b | b in order
      ensures b in g && Sound(t, b, g[b])
    {
      if b == a.name {
        OwnStepKeepsSound(g, s, a);
      } else {
        OthersKeepSound(g, s, a, b, g[b]);
      }
    }
    InvKnows(g, order, t);
  }

  lemma BeginEstablishes(g: Graph, order: seq<string>)
    requires Distinct(order) && DependenciesFirst(g, order)
    ensures Inv(g, order, Begin(order)) && Known(g, Begin(order))
  {
    forall a | a in order
      ensures a in g
    {
      var k :| 0 <= k < |order| && order[k] == a;
    }
    InvKnows(g, order, Begin(order));
  }

  lemma {:induction false} RunKeeps(g: Graph, order: seq<string>, s: State, actions: seq<Action>, t: State)
    requires Inv(g, order, s) && Run(g, s, actions, t)
    ensures Inv(g, order, t) && Known(g, t)
    decreases |actions|
  {
    hide Inv, Step, Known, Enabled;
    if actions == [] {
      InvKnows(g, order, t);
    } else {
      StepKeeps(g, order, s, actions[0]);
      RunKeeps(g, order, Step(g, s, actions[0]), actions[1..], t);
    }
  }

  // ---------------------------------------------------------------- Termination

  function Left(g: Graph, s: State, a: string): nat {
    if a !in s.stages || a !in g then 0
    else match s.stages[a]
         case Before(i) => if i <= |g[a]| then 2 * (|g[a]| - i) + 2 else 0
         case Awaiting(i) => if i <= |g[a]| then 2 * (|g[a]| - i) + 1 else 0
         case Starting => 1
         case Finished(_) => 0
  }

  /** The steps still to come, at most. */
  function Work(g: Graph, s: State, order: seq<string>): nat {
    if order == [] then 0
    else Work(g, s, order[..|order| - 1]) + Left(g, s, order[|order| - 1])
  }

  lemma {:induction false} WorkElsewhere(g: Graph, s: State, a: Action, names: seq<string>)
    requires Known(g, s) && Enabled(g, s, a) && a.name !in names
    ensures Work(g, Step(g, s, a), names) == Work(g, s, names)
    decreases |names|
  {
    if names != [] {
      WorkElsewhere(g, s, a, names[..|names| - 1]);
    }
  }

  lemma OwnWorkFalls(g: Graph, s: State, a: Action)
    requires Known(g, s) && Enabled(g, s, a)
    ensures Left(g, Step(g, s, a), a.name) + 1 <= Left(g, s, a.name)
  {
  }

  lemma {:induction false} WorkFalls(g: Graph, s: State, a: Action, names: seq<string>)
    requires Known(g, s) && Enabled(g, s, a) && a.name in names && Distinct(names)
    ensures Work(g, Step(g, s, a), names) + 1 <= Work(g, s, names)
    decreases |names|
  {
    hide Step, Left, Enabled, Known;
    var front, last := names[..|names| - 1], names[|names| - 1];
    assert names == front + [last];
    if a.name == last {
      OwnWorkFalls(g, s, a);
      WorkElsewhere(g, s, a, front);
    } else {
      WorkFalls(g, s, a, front);
      OtherWorkStays(g, s, a, last);
    }
  }

  lemma OtherWorkStays(g: Graph, s: State, a: Action, b: string)
    requires Known(g, s) && Enabled(g, s, a) && a.name != b
    ensures Left(g, Step(g, s, a), b) == Left(g, s, b)
  {
  }

  predicate AllDone(s: State, order: seq<string>) {
    forall a :: a in order ==> a in s.stages && s.stages[a].Finished?
  }

  /** The first service not done can move: all it waits for is done. */
  lemma SomeoneCanMove(g: Graph, order: seq<string>, s: State)
    requires Inv(g, order, s) && Known(g, s) && !AllDone(s, order)
    ensures exists a :: Enabled(g, s, a)
  {
    var k := FirstNotDone(order, s, 0);
    var name := order[k];
    assert name in s.stages && Sound(s, name, g[name]);
    var a := match s.stages[name]
             case Before(i) => if i < |g[name]| then See(name) else Call(name)
             case Awaiting(_) => Wait(name, true)
             case _ => Return(name, true);
    if a.See? {
      assert DependsWithin(g, order[k], order[..k]);
      var dep := g[name][s.stages[name].i].service;
      assert dep in order[..k];
    }
    assert Enabled(g, s, a);
  }

  lemma {:induction false} FirstNotDone(order: seq<string>, s: State, from: nat) returns (k: nat)
    requires !AllDone(s, order) && s.stages.Keys == (set a | a in order) && from <= |order|
    requires forall j :: 0 <= j < from ==> s.stages[order[j]].Finished?
    ensures k < |order| && order[k] in s.stages && !s.stages[order[k]].Finished?
    ensures forall j :: 0 <= j < k ==> order[j] in s.stages && s.stages[order[j]].Finished?
    decreases |order| - from
  {
    assert from < |order|;
    if s.stages[order[from]].Finished? {
      k := FirstNotDone(order, s, from + 1);
    } else {
      k := from;
    }
  }

  /** No deadlock and no endless run: a run is at most as long as the work there
      was, and until every outcome is done some goroutine can take a step. */
  lemma {:induction false} ConvergeFinishes(g: Graph, order: seq<string>, s: State, actions: seq<Action>, t: State)
    requires Inv(g, order, s) && Run(g, s, actions, t)
    ensures |actions| + Work(g, t, order) <= Work(g, s, order)
    ensures Known(g, t) && (AllDone(t, order) || exists a :: Enabled(g, t, a))
    decreases |actions|
  {
    hide Inv, Step, Enabled, Work, AllDone;
    if actions == [] {
      InvKnows(g, order, t);
      if !AllDone(t, order) {
        SomeoneCanMove(g, order, t);
      }
    } else {
      StepKeeps(g, order, s, actions[0]);
      ActorIsListed(g, order, s, actions[0]);
      WorkFalls(g, s, actions[0], order);
      ConvergeFinishes(g, order, Step(g, s, actions[0]), actions[1..], t);
    }
  }

  lemma ActorIsListed(g: Graph, order: seq<string>, s: State, a: Action)
    requires Inv(g, order, s) && Known(g, s) && Enabled(g, s, a)
    ensures a.name in order && Distinct(order)
  {
  }

  // ---------------------------------------------------------------- Main results

  /** up is called for a service only once every dependency came up and the
      service's own wait for its condition ended well. */
  lemma UpOnlyWhenReady(g: Graph, order: seq<string>, actions: seq<Action>, t: State, name: string)
    requires Distinct(order) && DependenciesFirst(g, order) && Run(g, Begin(order), actions, t)
    requires name in t.called
    ensures name in g && forall i :: 0 <= i < |g[name]| ==> Ready(t, name, g[name], i)
  {
    BeginEstablishes(g, order);
    RunKeeps(g, order, Begin(order), actions, t);
    assert name in order && Sound(t, name, g[name]);
  }

  /** Down a walk from a service that was started, everything came up. */
  lemma {:induction false} StartedMeansAllUp(g: Graph, order: seq<string>, t: State, p: seq<string>)
    requires Inv(g, order, t) && IsWalk(g, p) && |p| >= 2 && p[0] in t.called
    ensures p[|p| - 1] in t.stages && t.stages[p[|p| - 1]] == Finished(CameUp)
    decreases |p|
  {
    assert p[0] in order && Sound(t, p[0], g[p[0]]);
    assert Edge(g, p[0], p[1]);
    var i :| 0 <= i < |g[p[0]]| && g[p[0]][i].service == p[1];
    assert Ready(t, p[0], g[p[0]], i);
    if |p| > 2 {
      assert p[1] in order && Sound(t, p[1], g[p[1]]);
      WalkDrop(g, p, 1);
      StartedMeansAllUp(g, order, t, p[1..]);
    }
  }

  /** No transitive dependent of a service that failed is ever brought up. */
  lemma FailureStopsDependents(g: Graph, order: seq<string>, actions: seq<Action>, t: State, p: seq<string>)
    requires Distinct(order) && DependenciesFirst(g, order) && Run(g, Begin(order), actions, t)
    requires IsWalk(g, p) && |p| >= 2
    requires p[|p| - 1] in t.stages && t.stages[p[|p| - 1]].Finished? && t.stages[p[|p| - 1]].outcome.Failed?
    ensures p[0] !in t.called
  {
    BeginEstablishes(g, order);
    RunKeeps(g, order, Begin(order), actions, t);
    if p[0] in t.called {
      StartedMeansAllUp(g, order, t, p);
    }
  }

  /** The end of converge: the first error in the order the services were given. */
  method FirstError(order: seq<string>, s: State) returns (r: Option<(string, Failure)>)
    requires AllDone(s, order)
    ensures r.None? <==> forall a :: a in order ==> s.stages[a].outcome.CameUp?
    ensures r.Some? ==>
              exists k: nat :: IsFirstError(order, s, k) && r.value == (order[k], s.stages[order[k]].outcome.failure)
  {
    for k := 0 to |order|
      invariant forall j :: 0 <= j < k ==> s.stages[order[j]].outcome.CameUp?
    {
      var outcome := s.stages[order[k]].outcome;
      if outcome.Failed? {
        assert IsFirstError(order, s, k);
        return Some((order[k], outcome.failure));
      }
    }
    return None;
  }

  predicate IsFirstError(order: seq<string>, s: State, k: nat)
    requires AllDone(s, order)
  {
    && k < |order| && s.stages[order[k]].outcome.Failed?
    && forall j :: 0 <= j < k ==> s.stages[order[j]].outcome.CameUp?
  }

  /** The error converge returns is a root cause: never that a dependency did not
      come up, since whatever that one depends on is before it in the order. */
  lemma FirstErrorIsRootCause(g: Graph, order: seq<string>, actions: seq<Action>, t: State, k: nat)
    requires Distinct(order) && DependenciesFirst(g, order) && Run(g, Begin(order), actions, t)
    requires AllDone(t, order) && IsFirstError(order, t, k)
    ensures !t.stages[order[k]].outcome.failure.DependencyDown?
    ensures forall i :: 0 <= i < |g[order[k]]| ==>
              g[order[k]][i].service in t.stages && t.stages[g[order[k]][i].service] == Finished(CameUp)
  {
    BeginEstablishes(g, order);
    RunKeeps(g, order, Begin(order), actions, t);
    assert Sound(t, order[k], g[order[k]]);
    assert DependsWithin(g, order[k], order[..k]);
    forall i | 0 <= i < |g[order[k]]|
      ensures g[order[k]][i].service in t.stages && t.stages[g[order[k]][i].service] == Finished(CameUp)
    {
      assert g[order[k]][i].service in order[..k];
    }
  }

  // ---------------------------------------------------------------- Outcomes are what was answered

  /** In the run, the service's wait for its ith dependency was answered so. */
  predicate Waited(g: Graph, s: State, actions: seq<Action>, t: State, name: string, i: nat, ok: bool)
    requires Run(g, s, actions, t)
    decreases |actions|
  {
    && actions != []
    && (|| (actions[0] == Wait(name, ok) && name in s.stages && s.stages[name] == Awaiting(i))
        || Waited(g, Step(g, s, actions[0]), actions[1..], t, name, i, ok))
  }

  /** In the run, the service saw that its ith dependency had failed. */
  predicate SawDown(g: Graph, s: State, actions: seq<Action>, t: State, name: string, i: nat)
    requires Run(g, s, actions, t)
    decreases |actions|
  {
    && actions != []
    && (|| (&& actions[0] == See(name) && name in s.stages && s.stages[name] == Before(i)
            && name in g && i < |g[name]| && HasFailed(s, g[name][i].service))
        || SawDown(g, Step(g, s, actions[0]), actions[1..], t, name, i))
  }

  predicate HasFailed(s: State, name: string) {
    name in s.stages && s.stages[name].Finished? && s.stages[name].outcome.Failed?
  }

  /** What one step adds to what has been answered. */
  lemma StepAnswers(g: Graph, s: State, a: Action, name: string)
    requires Known(g, s) && Enabled(g, s, a) && name in s.stages
    ensures var t := Step(g, s, a);
            && name in t.stages
            && (name in t.called <==> name in s.called || a == Call(name))
            && (t.stages[name] == Finished(CameUp) <==> s.stages[name] == Finished(CameUp) || a == Return(name, true))
            && (t.stages[name] == Finished(Failed(UpFailed)) <==>
                  s.stages[name] == Finished(Failed(UpFailed)) || a == Return(name, false))
  {
  }

  /** What is kept of up is what it answered: a service came up if and only if up
      returned without error for it, failed of it if and only if up returned one, and
      up was called if and only if it was. */
  lemma {:induction false} UpIsAsAnswered(g: Graph, s: State, actions: seq<Action>, t: State, name: string)
    requires Run(g, s, actions, t) && name in s.stages
    ensures name in t.stages
    ensures name in t.called <==> name in s.called || Call(name) in actions
    ensures t.stages[name] == Finished(CameUp) <==>
            s.stages[name] == Finished(CameUp) || Return(name, true) in actions
    ensures t.stages[name] == Finished(Failed(UpFailed)) <==>
            s.stages[name] == Finished(Failed(UpFailed)) || Return(name, false) in actions
    decreases |actions|
  {
    hide Step, Enabled, Known;
    if actions != [] {
      StepAnswers(g, s, actions[0], name);
      UpIsAsAnswered(g, Step(g, s, actions[0]), actions[1..], t, name);
      assert actions == [actions[0]] + actions[1..];
    }
  }

  lemma StepWaits(g: Graph, s: State, a: Action, name: string, i: nat)
    requires Known(g, s) && Enabled(g, s, a) && name in s.stages && name in g && i < |g[name]|
    requires s.stages[name].Before? || s.stages[name].Awaiting? ==> s.stages[name].i <= |g[name]|
    ensures var t := Step(g, s, a);
            && name in t.stages
            && (t.stages[name].Before? || t.stages[name].Awaiting? ==> t.stages[name].i <= |g[name]|)
            && ((name, i) in t.met <==> (name, i) in s.met || (a == Wait(name, true) && s.stages[name] == Awaiting(i)))
            && (UnmetAt(g, s, a, name, i) ==> t.stages[name] == Finished(Failed(ConditionUnmet(g[name][i].service))))
            && (DownAt(g, s, a, name, i) ==> t.stages[name] == Finished(Failed(DependencyDown(g[name][i].service))))
            && (s.stages[name].Finished? ==> t.stages[name] == s.stages[name])
  {
  }

  /** A wait for the ith dependency that is answered badly. */
  predicate UnmetAt(g: Graph, s: State, a: Action, name: string, i: nat) {
    a == Wait(name, false) && name in s.stages && s.stages[name] == Awaiting(i)
  }

  predicate DownAt(g: Graph, s: State, a: Action, name: string, i: nat) {
    && a == See(name) && name in s.stages && s.stages[name] == Before(i)
    && name in g && i < |g[name]| && HasFailed(s, g[name][i].service)
  }

  /** A step that ends a service for want of a dependency is one of the two. */
  lemma StepStops(g: Graph, s: State, a: Action, name: string) returns (i: nat)
    requires Known(g, s) && Enabled(g, s, a) && name in s.stages && !s.stages[name].Finished?
    requires Step(g, s, a).stages[name].Finished? && Step(g, s, a).stages[name].outcome.Failed?
    requires !Step(g, s, a).stages[name].outcome.failure.UpFailed?
    ensures name in g && i < |g[name]|
    ensures var failure := Step(g, s, a).stages[name].outcome.failure;
            && failure.service == g[name][i].service
            && (failure.ConditionUnmet? ==> UnmetAt(g, s, a, name, i))
            && (failure.DependencyDown? ==> DownAt(g, s, a, name, i))
  {
    i := s.stages[name].i;
  }

  lemma {:induction false} FinishedStays(g: Graph, s: State, actions: seq<Action>, t: State, name: string, i: nat,
                                         ok: bool)
    requires Run(g, s, actions, t) && name in s.stages && s.stages[name].Finished?
    ensures name in t.stages && t.stages[name] == s.stages[name]
    ensures !Waited(g, s, actions, t, name, i, ok) && !SawDown(g, s, actions, t, name, i)
    decreases |actions|
  {
    if actions != [] {
      FinishedIsIdle(g, s, actions[0], name);
      hide Step, Enabled, Known;
      FinishedStays(g, Step(g, s, actions[0]), actions[1..], t, name, i, ok);
    }
  }

  lemma FinishedIsIdle(g: Graph, s: State, a: Action, name: string)
    requires Known(g, s) && Enabled(g, s, a) && name in s.stages && s.stages[name].Finished?
    ensures name in Step(g, s, a).stages && Step(g, s, a).stages[name] == s.stages[name]
  {
  }

  /** Where a service is among its dependencies. */
  predicate InBounds(g: Graph, s: State, name: string) {
    && name in s.stages && name in g
    && (s.stages[name].Before? || s.stages[name].Awaiting? ==> s.stages[name].i <= |g[name]|)
  }

  /** What is kept of a wait is what it answered: conditions are met if and only if the
      service's own wait for them ended well. */
  lemma {:induction false} MetIsAsAnswered(g: Graph, s: State, actions: seq<Action>, t: State, name: string, i: nat)
    requires Run(g, s, actions, t) && InBounds(g, s, name) && i < |g[name]|
    ensures (name, i) in t.met <==> (name, i) in s.met || Waited(g, s, actions, t, name, i, true)
    decreases |actions|
  {
    if actions != [] {
      StepWaits(g, s, actions[0], name, i);
      hide Step, Enabled, Known;
      MetIsAsAnswered(g, Step(g, s, actions[0]), actions[1..], t, name, i);
    }
  }

  /** A service fails of a condition only if its own wait for it ended badly, and of a
      dependency only if it saw that one failed. */
  lemma {:induction false} StoppedAsAnswered(g: Graph, s: State, actions: seq<Action>, t: State, name: string)
    requires Run(g, s, actions, t) && InBounds(g, s, name) && !s.stages[name].Finished?
    ensures name in t.stages
    ensures t.stages[name].Finished? && t.stages[name].outcome.Failed?
            && t.stages[name].outcome.failure.ConditionUnmet? ==>
              exists i :: 0 <= i < |g[name]| && Waited(g, s, actions, t, name, i, false)
                && g[name][i].service == t.stages[name].outcome.failure.service
    ensures t.stages[name].Finished? && t.stages[name].outcome.Failed?
            && t.stages[name].outcome.failure.DependencyDown? ==>
              exists i :: 0 <= i < |g[name]| && SawDown(g, s, actions, t, name, i)
                && g[name][i].service == t.stages[name].outcome.failure.service
    decreases |actions|
  {
    if actions != [] {
      var next := Step(g, s, actions[0]);
      StepStays(g, s, actions[0], name);
      if next.stages[name].Finished? {
        FinishedStays(g, next, actions[1..], t, name, 0, false);
        var outcome := next.stages[name].outcome;
        if outcome.Failed? && !outcome.failure.UpFailed? {
          var i := StepStops(g, s, actions[0], name);
          assert outcome.failure.ConditionUnmet? ==> Waited(g, s, actions, t, name, i, false);
          assert outcome.failure.DependencyDown? ==> SawDown(g, s, actions, t, name, i);
        }
      } else {
        hide Step, Enabled, Known;
        StoppedAsAnswered(g, next, actions[1..], t, name);
        forall i | 0 <= i < |g[name]|
          ensures Waited(g, next, actions[1..], t, name, i, false) ==> Waited(g, s, actions, t, name, i, false)
          ensures SawDown(g, next, actions[1..], t, name, i) ==> SawDown(g, s, actions, t, name, i)
        {
        }
      }
    }
  }

  lemma StepStays(g: Graph, s: State, a: Action, name: string)
    requires Known(g, s) && Enabled(g, s, a) && InBounds(g, s, name)
    ensures InBounds(g, Step(g, s, a), name)
  {
  }

  /** And whenever a wait ends badly, or a dependency is seen failed, it fails of that. */
  lemma {:induction false} AnswersStop(g: Graph, s: State, actions: seq<Action>, t: State, name: string, i: nat)
    requires Run(g, s, actions, t) && InBounds(g, s, name) && i < |g[name]|
    ensures name in t.stages
    ensures Waited(g, s, actions, t, name, i, false) ==>
              t.stages[name] == Finished(Failed(ConditionUnmet(g[name][i].service)))
    ensures SawDown(g, s, actions, t, name, i) ==>
              t.stages[name] == Finished(Failed(DependencyDown(g[name][i].service)))
    decreases |actions|
  {
    if actions != [] {
      var next := Step(g, s, actions[0]);
      StepWaits(g, s, actions[0], name, i);
      StepStays(g, s, actions[0], name);
      AnswersStop(g, next, actions[1..], t, name, i);
      hide Step, Enabled, Known;
      if next.stages[name].Finished? {
        FinishedStays(g, next, actions[1..], t, name, i, false);
      }
    }
  }

  /** converge's answer, read off what up answered: no error if and only if up returned
      without one for every service. */
  lemma NoErrorIffAllUp(g: Graph, order: seq<string>, actions: seq<Action>, t: State)
    requires Distinct(order) && DependenciesFirst(g, order) && Run(g, Begin(order), actions, t) && AllDone(t, order)
    ensures (forall a :: a in order ==> t.stages[a].outcome.CameUp?) <==>
            forall a :: a in order ==> Return(a, true) in actions
    ensures forall a :: a in order && t.stages[a].outcome.CameUp? ==> Call(a) in actions
  {
    BeginEstablishes(g, order);
    RunKeeps(g, order, Begin(order), actions, t);
    forall a | a in order
      ensures t.stages[a].outcome.CameUp? <==> Return(a, true) in actions
      ensures t.stages[a].outcome.CameUp? ==> Call(a) in actions
    {
      assert Sound(t, a, g[a]);
      UpIsAsAnswered(g, Begin(order), actions, t, a);
    }
  }

  /** So the failure that stops a service's dependents, however far, is an error that
      up, a wait or a dependency's failure answered, and none of them is called. */
  lemma FailedUpStopsDependents(g: Graph, order: seq<string>, actions: seq<Action>, t: State, p: seq<string>)
    requires Distinct(order) && DependenciesFirst(g, order) && Run(g, Begin(order), actions, t)
    requires IsWalk(g, p) && |p| >= 2 && p[|p| - 1] in order && Return(p[|p| - 1], false) in actions
    ensures Call(p[0]) !in actions
  {
    UpIsAsAnswered(g, Begin(order), actions, t, p[|p| - 1]);
    FailureStopsDependents(g, order, actions, t, p);
    if p[0] in order {
      UpIsAsAnswered(g, Begin(order), actions, t, p[0]);
    } else {
      NeverCalled(g, Begin(order), actions, t, p[0]);
    }
  }

  lemma {:induction false} NeverCalled(g: Graph, s: State, actions: seq<Action>, t: State, name: string)
    requires Run(g, s, actions, t) && name !in s.stages
    ensures Call(name) !in actions
    decreases |actions|
  {
    if actions != [] {
      assert name !in Step(g, s, actions[0]).stages;
      NeverCalled(g, Step(g, s, actions[0]), actions[1..], t, name);
      assert actions == [actions[0]] + actions[1..];
    }
  }
}
