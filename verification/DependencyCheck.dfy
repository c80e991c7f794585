/** checkDependencies (internal/compose/build.go): a depth-first search that
    colours services and keeps the chain of those it is inside of. */
module DependencyCheck {
  import opened Wrappers
  import opened Dependencies

  datatype Colour = Visiting | Done

  datatype Verdict =
    | Accepted
    | DependsOnItself(name: string)
    | NoSuchService(name: string, dependency: string)
    | Cycle(path: seq<string>)

  /** path is the chain of the services being visited. */
  ghost predicate PathShape(g: Graph, state: map<string, Colour>, path: seq<string>) {
    && Distinct(path) && (forall a :: a in path <==> a in state && state[a] == Visiting)
    && (path != [] ==> IsWalk(g, path))
  }

  /** finished lists the services done, with their dependencies first. */
  ghost predicate DoneShape(g: Graph, state: map<string, Colour>, finished: seq<string>) {
    && Distinct(finished) && (forall a :: a in finished <==> a in state && state[a] == Done)
    && DependenciesFirst(g, finished)
  }

  lemma EnterPath(g: Graph, state: map<string, Colour>, path: seq<string>, name: string)
    requires PathShape(g, state, path) && name !in state && (path != [] ==> Edge(g, path[|path| - 1], name))
    ensures PathShape(g, state[name := Visiting], path + [name])
  {
    if path != [] {
      WalkAppend(g, path, name);
    }
  }

  lemma LeavePath(g: Graph, state: map<string, Colour>, path: seq<string>, name: string)
    requires PathShape(g, state, path) && path != [] && path[|path| - 1] == name
    ensures PathShape(g, state[name := Done], path[..|path| - 1])
  {
    if |path| > 1 {
      WalkFront(g, path);
    }
    hide IsWalk;
    assert path == path[..|path| - 1] + [name] && name !in path[..|path| - 1];
  }

  lemma LeaveDone(g: Graph, state: map<string, Colour>, finished: seq<string>, name: string)
    requires DoneShape(g, state, finished) && name in g && name in state && state[name] == Visiting
    requires DependsWithin(g, name, finished)
    ensures DoneShape(g, state[name := Done], finished + [name])
  {
    ListAppend(g, finished, name);
    hide DependenciesFirst;
  }

  lemma CycleFound(g: Graph, path: seq<string>, start: nat)
    requires start < |path| && IsWalk(g, path) && Distinct(path) && Edge(g, path[|path| - 1], path[start])
    ensures var cycle := path[start..] + [path[start]];
            IsCycle(g, cycle) && Distinct(cycle[..|cycle| - 1])
  {
    WalkDrop(g, path, start);
    WalkAppend(g, path[start..], path[start]);
    assert (path[start..] + [path[start]])[..|path| - start] == path[start..];
  }

  class Search {
    const g: Graph
    // state: a service not in it is unvisited
    var state: map<string, Colour>
    var path: seq<string>
    // the services done, in the order they were
    ghost var finished: seq<string>

    ghost predicate Valid()
      reads this
    {
      Closed(g) && state.Keys <= g.Keys && PathShape(g, state, path) && DoneShape(g, state, finished)
    }

    constructor (g: Graph)
      requires Closed(g)
      ensures Valid() && this.g == g && state == map[] && path == []
    {
      this.g, state, path, finished := g, map[], [], [];
    }

    method Visit(name: string) returns (cycle: Option<seq<string>>)
      requires Valid() && name in g && (path != [] ==> Edge(g, path[|path| - 1], name))
      modifies this
      decreases g.Keys - state.Keys
      ensures cycle.Some? ==> IsCycle(g, cycle.value) && Distinct(cycle.value[..|cycle.value| - 1])
      ensures cycle.None? ==> Valid() && path == old(path) && old(finished) <= finished && name in finished
      ensures old(state.Keys) <= state.Keys
    {
      hide DependenciesFirst, IsWalk;
      if name in state {
        match state[name] {
          case Visiting =>
            var start :| 0 <= start < |path| && path[start] == name;
            CycleFound(g, path, start);
            return Some(path[start..] + [name]);
          case Done =>
            return None;
        }
      }

      Enter(name);
      var i := 0;
      while i < |g[name]|
        invariant i <= |g[name]|
        invariant Valid() && path == old(path) + [name] && old(finished) <= finished
        invariant old(state.Keys) + {name} <= state.Keys
        invariant forall j :: 0 <= j < i ==> g[name][j].service in finished
      {
        assert Edge(g, name, g[name][i].service);
        cycle := Visit(g[name][i].service);
        if cycle.Some? {
          return;
        }
        i := i + 1;
      }
      Leave(name);
      return None;
    }

    method Enter(name: string)
      requires Valid() && name in g && name !in state && (path != [] ==> Edge(g, path[|path| - 1], name))
      modifies this
      ensures Valid() && path == old(path) + [name] && finished == old(finished)
      ensures state.Keys == old(state.Keys) + {name}
    {
      EnterPath(g, state, path, name);
      state := state[name := Visiting];
      path := path + [name];
    }

    method Leave(name: string)
      requires Valid() && path != [] && path[|path| - 1] == name && DependsWithin(g, name, finished)
      modifies this
      ensures Valid() && path == old(path)[..|old(path)| - 1] && finished == old(finished) + [name]
      ensures state.Keys == old(state.Keys)
    {
      assert name in path;
      LeavePath(g, state, path, name);
      LeaveDone(g, state, finished, name);
      hide PathShape, DoneShape;
      state := state[name := Done];
      path := path[..|path| - 1];
      finished := finished + [name];
    }
  }

  /** The service's ith dependency is another service that is there. */
  predicate IsSound(g: Graph, a: string, i: nat)
    requires a in g && i < |g[a]|
  {
    g[a][i].service in g && g[a][i].service != a
  }

  /** The verdict is about the first dependency that is not, in the order the services
      are taken in. */
  ghost predicate BlamesFirst(g: Graph, names: seq<string>, verdict: Verdict)
    requires forall a :: a in names ==> a in g
  {
    exists n, i ::
      && 0 <= n < |names| && 0 <= i < |g[names[n]]| && !IsSound(g, names[n], i)
      && (forall j :: 0 <= j < i ==> IsSound(g, names[n], j))
      && (forall m, j :: 0 <= m < n && 0 <= j < |g[names[m]]| ==> IsSound(g, names[m], j))
      && var (name, dep) := (names[n], g[names[n]][i].service);
         (dep == name ==> verdict == DependsOnItself(name)) && (dep != name ==> verdict == NoSuchService(name, dep))
  }

  /** The first pass: no service depends on itself or on what is not there. */
  method CheckNames(g: Graph, names: seq<string>) returns (verdict: Verdict)
    requires forall a :: a in names ==> a in g
    ensures verdict.Accepted? ==>
              forall a, i :: a in names && 0 <= i < |g[a]| ==> IsSound(g, a, i)
    ensures !verdict.Cycle?
    ensures verdict.DependsOnItself? ==> Edge(g, verdict.name, verdict.name)
    ensures verdict.NoSuchService? ==> Edge(g, verdict.name, verdict.dependency) && verdict.dependency !in g
    ensures !verdict.Accepted? ==> BlamesFirst(g, names, verdict)
  {
    for n := 0 to |names|
      invariant forall m, i :: 0 <= m < n && 0 <= i < |g[names[m]]| ==> IsSound(g, names[m], i)
    {
      var name := names[n];
      for i := 0 to |g[name]|
        invariant forall j :: 0 <= j < i ==> IsSound(g, name, j)
      {
        var dep := g[name][i].service;
        assert Edge(g, name, dep);
        assert !IsSound(g, names[n], i) <==> dep == name || dep !in g;
        if dep == name {
          return DependsOnItself(name);
        }
        if dep !in g {
          return NoSuchService(name, dep);
        }
      }
    }
    return Accepted;
  }

  /** checkDependencies, whatever the order it takes the services in: it accepts
      exactly the graphs that are closed and have no cycle, and what it reports
      against any other is really there. */
  method CheckDependencies(g: Graph, names: seq<string>) returns (verdict: Verdict)
    requires forall a :: a in names <==> a in g
    ensures verdict.Accepted? <==> Closed(g) && Acyclic(g)
    ensures verdict.DependsOnItself? ==> Edge(g, verdict.name, verdict.name)
    ensures verdict.NoSuchService? ==> Edge(g, verdict.name, verdict.dependency) && verdict.dependency !in g
    ensures verdict.Cycle? ==> IsCycle(g, verdict.path) && Distinct(verdict.path[..|verdict.path| - 1])
    ensures verdict.Cycle? <==> !Acyclic(g) && forall a, i :: a in g && 0 <= i < |g[a]| ==> IsSound(g, a, i)
    ensures !verdict.Accepted? && !verdict.Cycle? ==> BlamesFirst(g, names, verdict)
  {
    verdict := CheckNames(g, names);
    if !verdict.Accepted? {
      if verdict.DependsOnItself? {
        assert IsCycle(g, [verdict.name, verdict.name]);
      }
      return;
    }
    forall a, i | a in g && 0 <= i < |g[a]|
      ensures g[a][i].service in g
    {
      assert IsSound(g, a, i);
    }

    var search := new Search(g);
    for n := 0 to |names|
      invariant search.Valid() && search.path == [] && search.g == g && fresh(search)
      invariant forall m :: 0 <= m < n ==> names[m] in search.finished
    {
      var cycle := search.Visit(names[n]);
      if cycle.Some? {
        return Cycle(cycle.value);
      }
    }
    OrderedIsAcyclic(g, search.finished);
    return Accepted;
  }
}
