/** Order and Select (internal/compose/project.go): a depth-first search that
    lists each service after those it depends on. */
module ServiceOrder {
  import opened Wrappers
  import opened Dependencies

  /** What Order promises of the services listed for some roots. */
  ghost predicate IsOrder(g: Graph, roots: seq<string>, order: seq<string>) {
    && Distinct(order) && DependenciesFirst(g, order)
    && forall a :: a in order <==> exists r :: r in roots && Reaches(g, r, a)
  }

  /** On a graph with no cycle, a service visited but not yet listed cannot be
      reached from the chain of services being visited. */
  lemma NotInside(g: Graph, chain: seq<string>, name: string)
    requires Acyclic(g) && chain != [] && IsWalk(g, chain) && Edge(g, chain[|chain| - 1], name)
    ensures name !in chain
  {
    if name in chain {
      var start :| 0 <= start < |chain| && chain[start] == name;
      WalkDrop(g, chain, start);
      WalkAppend(g, chain[start..], name);
      assert IsCycle(g, chain[start..] + [name]);
    }
  }

  ghost predicate FromRoots(g: Graph, roots: seq<string>, name: string) {
    exists r :: r in roots && Reaches(g, r, name)
  }

  /** The services visited are those listed and those of the chain being visited. */
  ghost predicate Shape(g: Graph, roots: seq<string>, visited: set<string>, order: seq<string>, chain: seq<string>) {
    && Distinct(order) && DependenciesFirst(g, order)
    && Distinct(chain) && (chain != [] ==> IsWalk(g, chain))
    && (forall a :: a in visited <==> a in order || a in chain)
    && (forall a :: a in chain ==> a !in order)
    && visited <= g.Keys && forall a :: a in visited ==> FromRoots(g, roots, a)
  }

  lemma EnterKeeps(g: Graph, roots: seq<string>, visited: set<string>, order: seq<string>,
                   chain: seq<string>, name: string)
    requires Shape(g, roots, visited, order, chain) && name in g && name !in visited && FromRoots(g, roots, name)
    requires chain != [] ==> Edge(g, chain[|chain| - 1], name)
    ensures Shape(g, roots, visited + {name}, order, chain + [name])
  {
    if chain != [] {
      WalkAppend(g, chain, name);
    }
    hide DependenciesFirst, FromRoots, IsWalk;
    assert chain + [name] != [];
    assert chain == [] ==> IsWalk(g, chain + [name]) by {
      WalkOne(g, name);
      assert chain == [] ==> chain + [name] == [name];
    }
  }

  lemma WalkOne(g: Graph, name: string)
    ensures IsWalk(g, [name])
  {
  }

  lemma LeaveKeeps(g: Graph, roots: seq<string>, visited: set<string>, order: seq<string>,
                   chain: seq<string>, name: string)
    requires Shape(g, roots, visited, order, chain) && chain != [] && chain[|chain| - 1] == name && name in g
    requires DependsWithin(g, name, order)
    ensures Shape(g, roots, visited, order + [name], chain[..|chain| - 1])
  {
    assert name in chain;
    ListAppend(g, order, name);
    if |chain| > 1 {
      WalkFront(g, chain);
    }
    hide DependenciesFirst, FromRoots, IsWalk;
    assert chain == chain[..|chain| - 1] + [name];
  }

  // ---------------------------------------------------------------- The search

  /** What a search has come to: the services visited, and those listed. */
  datatype Found = Found(visited: set<string>, order: seq<string>)

  function Services(deps: seq<Dependency>): (names: seq<string>)
    ensures |names| == |deps| && forall i :: 0 <= i < |deps| ==> names[i] == deps[i].service
  {
    seq(|deps|, i requires 0 <= i < |deps| => deps[i].service)
  }

  /** Visiting a service: first, in order, those it depends on, and then it is listed. */
  function VisitOne(g: Graph, name: string, f: Found): (after: Found)
    ensures f.visited <= after.visited
    decreases g.Keys - f.visited, 0
  {
    if name in f.visited || name !in g then f
    else
      var inside := VisitAll(g, Services(g[name]), Found(f.visited + {name}, f.order));
      Found(inside.visited, inside.order + [name])
  }

  function VisitAll(g: Graph, names: seq<string>, f: Found): (after: Found)
    ensures f.visited <= after.visited
    decreases g.Keys - f.visited, |names|
  {
    if names == [] then f
    else
      var first := VisitOne(g, names[0], f);
      assert g.Keys - first.visited <= g.Keys - f.visited;
      VisitAll(g, names[1..], first)
  }

  /** The order of the services reached from the roots, those taken in turn. */
  function OrderOf(g: Graph, roots: seq<string>): seq<string> {
    VisitAll(g, roots, Found({}, [])).order
  }

  lemma VisitNext(g: Graph, names: seq<string>, i: nat, f: Found)
    requires i < |names|
    ensures VisitAll(g, names[i..], f) == VisitAll(g, names[i + 1..], VisitOne(g, names[i], f))
  {
    assert names[i..][0] == names[i] && names[i..][1..] == names[i + 1..];
    hide VisitOne;
  }

  lemma VisitNothing(g: Graph, names: seq<string>, f: Found)
    ensures VisitAll(g, names[|names|..], f) == f && names[0..] == names
  {
  }

  class Search {
    const g: Graph
    const roots: seq<string>
    var visited: set<string>
    var order: seq<string>
    // the chain of services being visited
    ghost var chain: seq<string>

    ghost predicate Valid()
      reads this
    {
      Closed(g) && Acyclic(g) && Shape(g, roots, visited, order, chain)
    }

    constructor (g: Graph, roots: seq<string>)
      requires Closed(g) && Acyclic(g)
      ensures Valid() && this.g == g && this.roots == roots && visited == {} && order == [] && chain == []
    {
      this.g, this.roots, visited, order, chain := g, roots, {}, [], [];
    }

    method Visit(name: string)
      requires Valid() && name in g && FromRoots(g, roots, name)
      requires chain != [] ==> Edge(g, chain[|chain| - 1], name)
      modifies this
      decreases g.Keys - visited
      ensures Valid() && chain == old(chain) && old(visited) <= visited
      ensures old(order) <= order && name in order
      ensures Found(visited, order) == VisitOne(g, name, Found(old(visited), old(order)))
    {
      hide DependenciesFirst, IsWalk, FromRoots, VisitAll;
      ghost var names := Services(g[name]);
      ghost var inside := VisitAll(g, names, Found(visited + {name}, order));
      if chain != [] {
        NotInside(g, chain, name);
      }
      if name in visited {
        return;
      }
      EnterKeeps(g, roots, visited, order, chain, name);
      visited := visited + {name};
      chain := chain + [name];
      var i := 0;
      VisitNothing(g, names, Found(visited, order));
      while i < |g[name]|
        invariant i <= |g[name]| && VisitAll(g, names[i..], Found(visited, order)) == inside
        invariant Valid() && chain == old(chain) + [name] && old(visited) + {name} <= visited && old(order) <= order
        invariant forall j :: 0 <= j < i ==> g[name][j].service in order
      {
        NextFromRoots(g, roots, name, i);
        VisitNext(g, names, i, Found(visited, order));
        Visit(g[name][i].service);
        i := i + 1;
      }
      VisitNothing(g, names, Found(visited, order));
      LeaveKeeps(g, roots, visited, order, chain, name);
      chain := chain[..|chain| - 1];
      order := order + [name];
    }
  }

  lemma NextFromRoots(g: Graph, roots: seq<string>, name: string, i: nat)
    requires name in g && i < |g[name]| && FromRoots(g, roots, name)
    ensures Edge(g, name, g[name][i].service) && FromRoots(g, roots, g[name][i].service)
  {
    var r :| r in roots && Reaches(g, r, name);
    ReachesNext(g, r, name, g[name][i].service);
  }

  /** The name is the first of those given that no service has. */
  ghost predicate IsFirstUnknown(g: Graph, names: seq<string>, name: string) {
    exists n :: 0 <= n < |names| && names[n] == name && name !in g && forall m :: 0 <= m < n ==> names[m] in g
  }

  /** Order, on a graph checkDependencies accepts; all lists every service. An
      unknown name is refused, and nothing else is. */
  method Order(g: Graph, all: seq<string>, names: seq<string>) returns (r: Result<seq<string>, string>)
    requires Closed(g) && Acyclic(g) && forall a :: a in all <==> a in g
    ensures r.Ok? <==> forall a :: a in names ==> a in g
    ensures r.Ok? ==> r.value == OrderOf(g, if names == [] then all else names)
    ensures r.Ok? ==> IsOrder(g, if names == [] then all else names, r.value)
    ensures r.Err? ==> IsFirstUnknown(g, names, r.error)
  {
    hide Acyclic, Shape, IsOrder, FromRoots, VisitAll, VisitOne;
    var roots := if names == [] then all else names;
    var search := new Search(g, roots);
    VisitNothing(g, roots, Found({}, []));
    for n := 0 to |roots|
      invariant fresh(search) && search.Valid() && search.g == g && search.roots == roots && search.chain == []
      invariant forall m :: 0 <= m < n ==> roots[m] in search.order && roots[m] in g
      invariant VisitAll(g, roots[n..], Found(search.visited, search.order)) == VisitAll(g, roots, Found({}, []))
    {
      if roots[n] !in g {
        return Err(roots[n]);
      }
      RootsAreFromRoots(g, roots, n);
      VisitNext(g, roots, n, Found(search.visited, search.order));
      search.Visit(roots[n]);
    }
    VisitNothing(g, roots, Found(search.visited, search.order));
    SearchedIsOrder(g, roots, search.visited, search.order);
    return Ok(search.order);
  }

  lemma RootsAreFromRoots(g: Graph, roots: seq<string>, n: nat)
    requires n < |roots|
    ensures FromRoots(g, roots, roots[n])
  {
    ReachesSelf(g, roots[n]);
  }

  lemma SearchedIsOrder(g: Graph, roots: seq<string>, visited: set<string>, order: seq<string>)
    requires Shape(g, roots, visited, order, []) && forall m :: 0 <= m < |roots| ==> roots[m] in order
    ensures IsOrder(g, roots, order)
  {
    forall a, r | r in roots && Reaches(g, r, a)
      ensures a in order
    {
      OrderHasReachable(g, order, r, a);
    }
    forall a | a in order
      ensures FromRoots(g, roots, a)
    {
    }
    hide Reaches, DependenciesFirst;
  }

  // ---------------------------------------------------------------- Select

  function Only(order: seq<string>, names: seq<string>): seq<string> {
    if order == [] then []
    else Only(order[..|order| - 1], names) +
         (if order[|order| - 1] in names then [order[|order| - 1]] else [])
  }

  /** What is selected is in names, and the two lists agree on who is before whom. */
  lemma {:induction false} OnlyKeepsOrder(order: seq<string>, names: seq<string>)
    requires Distinct(order)
    ensures var kept := Only(order, names);
            && Distinct(kept) && (forall a :: a in kept <==> a in order && a in names)
            && forall i, j :: 0 <= i < j < |kept| ==> Before(order, kept[i], kept[j])
    decreases |order|
  {
    if order != [] {
      var front, last := order[..|order| - 1], order[|order| - 1];
      OnlyKeepsOrder(front, names);
      var kept := Only(front, names);
      assert order == front + [last] && last !in front;
      forall i, j | 0 <= i < j < |Only(order, names)|
        ensures Before(order, Only(order, names)[i], Only(order, names)[j])
      {
        if j < |kept| {
          assert Before(front, kept[i], kept[j]);
          BeforeLonger(front, last, kept[i], kept[j]);
        } else {
          assert kept[i] in kept && kept[i] in front;
          var k :| 0 <= k < |front| && front[k] == kept[i];
          assert order[k] == kept[i] && order[|order| - 1] == last;
        }
      }
    }
  }

  ghost predicate Before(order: seq<string>, a: string, b: string) {
    exists i, j :: 0 <= i < j < |order| && order[i] == a && order[j] == b
  }

  lemma BeforeLonger(front: seq<string>, last: string, a: string, b: string)
    requires Before(front, a, b)
    ensures Before(front + [last], a, b)
  {
    var i, j :| 0 <= i < j < |front| && front[i] == a && front[j] == b;
    assert (front + [last])[i] == a && (front + [last])[j] == b;
  }

  /** Select: exactly the services named, in the order Order gives them. */
  method Select(g: Graph, all: seq<string>, names: seq<string>) returns (r: Result<seq<string>, string>)
    requires Closed(g) && Acyclic(g) && forall a :: a in all <==> a in g
    ensures r.Ok? <==> forall a :: a in names ==> a in g
    ensures r.Err? ==> IsFirstUnknown(g, names, r.error)
    ensures r.Ok? && names == [] ==> r.value == OrderOf(g, all) && IsOrder(g, all, r.value)
    ensures r.Ok? && names != [] ==> r.value == Only(OrderOf(g, names), names) && IsOrder(g, names, OrderOf(g, names))
    ensures r.Ok? && names != [] ==> Distinct(r.value) && forall a :: a in r.value <==> a in names
  {
    hide OrderOf;
    r := Order(g, all, names);
    if r.Err? || names == [] {
      return;
    }
    var order, kept := r.value, [];
    for n := 0 to |order|
      invariant kept == Only(order[..n], names)
    {
      assert order[..n + 1][..n] == order[..n];
      if order[n] in names {
        kept := kept + [order[n]];
      }
    }
    assert order[..|order|] == order;
    OnlyKeepsOrder(order, names);
    forall a | a in names
      ensures a in order
    {
      ReachesSelf(g, a);
    }
    r := Ok(kept);
  }
}
