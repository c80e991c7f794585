/** A project's services and what they depend on: what it means to be acyclic,
    reachable and ordered (internal/compose/project.go). */
module Dependencies {
  datatype Condition = Started | Healthy | CompletedSuccessfully

  datatype Dependency = Dependency(service: string, condition: Condition)

  /** The services by name, each with its depends_on in the order given. */
  type Graph = map<string, seq<Dependency>>

  predicate Edge(g: Graph, a: string, b: string) {
    a in g && exists i :: 0 <= i < |g[a]| && g[a][i].service == b
  }

  /** Every dependency is a service of the project. */
  predicate Closed(g: Graph) {
    forall a, i :: a in g && 0 <= i < |g[a]| ==> g[a][i].service in g
  }

  predicate IsWalk(g: Graph, p: seq<string>) {
    p != [] && forall i :: 0 <= i < |p| - 1 ==> Edge(g, p[i], p[i + 1])
  }

  predicate IsCycle(g: Graph, p: seq<string>) {
    |p| >= 2 && IsWalk(g, p) && p[0] == p[|p| - 1]
  }

  ghost predicate Acyclic(g: Graph) {
    forall p :: !IsCycle(g, p)
  }

  ghost predicate Reaches(g: Graph, a: string, b: string) {
    exists p :: IsWalk(g, p) && p[0] == a && p[|p| - 1] == b
  }

  predicate Distinct(names: seq<string>) {
    forall i, j :: 0 <= i < j < |names| ==> names[i] != names[j]
  }

  /** Whatever a service in the list depends on is before it in the list. */
  predicate DependenciesFirst(g: Graph, order: seq<string>) {
    forall k :: 0 <= k < |order| ==> order[k] in g && DependsWithin(g, order[k], order[..k])
  }

  predicate DependsWithin(g: Graph, a: string, earlier: seq<string>)
    requires a in g
  {
    forall i :: 0 <= i < |g[a]| ==> g[a][i].service in earlier
  }

  // ---------------------------------------------------------------- Lemmas

  lemma ListAppend(g: Graph, order: seq<string>, a: string)
    requires DependenciesFirst(g, order) && Distinct(order)
    requires a in g && a !in order && DependsWithin(g, a, order)
    ensures DependenciesFirst(g, order + [a]) && Distinct(order + [a])
  {
    var longer := order + [a];
    forall k | 0 <= k < |longer|
      ensures longer[k] in g && DependsWithin(g, longer[k], longer[..k])
    {
      if k < |order| {
        assert longer[..k] == order[..k];
      } else {
        assert longer[..k] == order;
      }
    }
  }

  lemma EdgeWithin(g: Graph, order: seq<string>, k: nat, b: string) returns (j: nat)
    requires DependenciesFirst(g, order) && k < |order| && Edge(g, order[k], b)
    ensures j < k && order[j] == b
  {
    assert b in order[..k];
    j :| 0 <= j < k && order[..k][j] == b;
  }

  lemma WalkAppend(g: Graph, p: seq<string>, b: string)
    requires IsWalk(g, p) && Edge(g, p[|p| - 1], b)
    ensures IsWalk(g, p + [b])
  {
    var q := p + [b];
    forall i | 0 <= i < |q| - 1
      ensures Edge(g, q[i], q[i + 1])
    {
      if i < |p| - 1 {
        assert Edge(g, p[i], p[i + 1]);
      }
    }
  }

  lemma WalkFront(g: Graph, p: seq<string>)
    requires IsWalk(g, p) && |p| > 1
    ensures IsWalk(g, p[..|p| - 1])
  {
    var q := p[..|p| - 1];
    forall i | 0 <= i < |q| - 1
      ensures Edge(g, q[i], q[i + 1])
    {
      assert Edge(g, p[i], p[i + 1]);
    }
  }

  lemma WalkDrop(g: Graph, p: seq<string>, n: nat)
    requires IsWalk(g, p) && n < |p|
    ensures IsWalk(g, p[n..])
  {
    var q := p[n..];
    forall i | 0 <= i < |q| - 1
      ensures Edge(g, q[i], q[i + 1])
    {
      assert Edge(g, p[n + i], p[n + i + 1]);
    }
  }

  /** Along a walk, positions in such a list strictly fall. */
  lemma {:induction false} WalkFalls(g: Graph, order: seq<string>, p: seq<string>, k: nat) returns (j: nat)
    requires DependenciesFirst(g, order) && IsWalk(g, p) && k < |order| && order[k] == p[0]
    ensures j < |order| && order[j] == p[|p| - 1]
    ensures if |p| == 1 then j == k else j < k
    decreases |p|
  {
    if |p| == 1 {
      j := k;
    } else {
      assert Edge(g, p[0], p[1]);
      j := EdgeWithin(g, order, k, p[1]);
      WalkDrop(g, p, 1);
      j := WalkFalls(g, order, p[1..], j);
    }
  }

  /** A graph all of whose services can be so listed has no cycle. */
  lemma OrderedIsAcyclic(g: Graph, order: seq<string>)
    requires DependenciesFirst(g, order) && Distinct(order) && forall a :: a in g ==> a in order
    ensures Acyclic(g)
  {
    forall p | IsCycle(g, p)
      ensures false
    {
      assert Edge(g, p[0], p[1]);
      var k :| 0 <= k < |order| && order[k] == p[0];
      var j := WalkFalls(g, order, p, k);
    }
  }

  lemma ReachesSelf(g: Graph, a: string)
    ensures Reaches(g, a, a)
  {
    assert IsWalk(g, [a]);
  }

  lemma ReachesNext(g: Graph, a: string, b: string, c: string)
    requires Reaches(g, a, b) && Edge(g, b, c)
    ensures Reaches(g, a, c)
  {
    var p :| IsWalk(g, p) && p[0] == a && p[|p| - 1] == b;
    WalkAppend(g, p, c);
    assert (p + [c])[0] == a;
  }

  /** Such a list has whatever its members reach. */
  lemma OrderHasReachable(g: Graph, order: seq<string>, a: string, b: string)
    requires DependenciesFirst(g, order) && a in order && Reaches(g, a, b)
    ensures b in order
  {
    var p :| IsWalk(g, p) && p[0] == a && p[|p| - 1] == b;
    var k :| 0 <= k < |order| && order[k] == a;
    var j := WalkFalls(g, order, p, k);
  }
}
