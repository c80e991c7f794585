/** editDistance (internal/cli/suggest.go): Levenshtein distance, a swap of two
    neighbours counting as one edit. */
module EditDistance {
  function Min(x: nat, y: nat): nat {
    if x <= y then x else y
  }

  predicate Swapped(a: string, b: string) {
    && |a| > 1 && |b| > 1
    && a[|a| - 1] == b[|b| - 2] && a[|a| - 2] == b[|b| - 1]
  }

  /** The distance by its recursive definition on the last characters. */
  function Distance(a: string, b: string): nat
    decreases |a| + |b|
  {
    if a == "" then |b|
    else if b == "" then |a|
    else
      var a', b' := a[..|a| - 1], b[..|b| - 1];
      var cost := if a[|a| - 1] == b[|b| - 1] then 0 else 1;
      var best := Min(Min(Distance(a', b) + 1, Distance(a, b') + 1), Distance(a', b') + cost);
      if Swapped(a, b) then Min(best, Distance(a[..|a| - 2], b[..|b| - 2]) + 1) else best
  }

  lemma Unfold(a: string, b: string)
    requires a != "" && b != ""
    ensures var a', b' := a[..|a| - 1], b[..|b| - 1];
            var cost := if a[|a| - 1] == b[|b| - 1] then 0 else 1;
            var best := Min(Min(Distance(a', b) + 1, Distance(a, b') + 1), Distance(a', b') + cost);
            Distance(a, b) ==
            if Swapped(a, b) then Min(best, Distance(a[..|a| - 2], b[..|b| - 2]) + 1) else best
  {
    hide Min, Swapped;
  }

  lemma Empty(a: string)
    ensures Distance(a, "") == Distance("", a) == |a|
  {
  }

  /** A cell of the table, from its neighbours. */
  function CellOf(a: string, b: string, i: nat, j: nat, up: nat, left: nat, corner: nat, back: nat): nat
    requires 1 <= i <= |a| && 1 <= j <= |b|
  {
    var cost := if a[i - 1] == b[j - 1] then 0 else 1;
    var best := Min(Min(up + 1, left + 1), corner + cost);
    if i > 1 && j > 1 && a[i - 1] == b[j - 2] && a[i - 2] == b[j - 1] then Min(best, back + 1) else best
  }

  lemma Cell(a: string, b: string, i: nat, j: nat)
    requires 1 <= i <= |a| && 1 <= j <= |b|
    ensures Distance(a[..i], b[..j]) ==
            CellOf(a, b, i, j, Distance(a[..i - 1], b[..j]), Distance(a[..i], b[..j - 1]),
                   Distance(a[..i - 1], b[..j - 1]),
                   if i > 1 && j > 1 then Distance(a[..i - 2], b[..j - 2]) else 0)
  {
    hide Distance, Min;
    Unfold(a[..i], b[..j]);
    assert a[..i][..i - 1] == a[..i - 1] && b[..j][..j - 1] == b[..j - 1];
    if i > 1 && j > 1 {
      assert a[..i][..i - 2] == a[..i - 2];
      assert b[..j][..j - 2] == b[..j - 2];
    }
  }

  /** The first n rows of the table are right. */
  ghost predicate RowsDone(a: string, b: string, d: array2<nat>, n: nat)
    requires d.Length0 == |a| + 1 && d.Length1 == |b| + 1 && n <= |a| + 1
    reads d
  {
    forall k, l :: 0 <= k < n && 0 <= l <= |b| ==> d[k, l] == Distance(a[..k], b[..l])
  }

  /** editDistance: cell i, j of the table is the distance of the prefixes. */
  method Compute(a: string, b: string) returns (distance: nat)
    ensures distance == Distance(a, b)
  {
    hide Distance;
    var d := new nat[|a| + 1, |b| + 1];
    for i := 0 to |a| + 1
      invariant forall k :: 0 <= k < i ==> d[k, 0] == k
    {
      d[i, 0] := i;
    }
    for j := 0 to |b| + 1
      invariant forall k :: 0 <= k <= |a| ==> d[k, 0] == k
      invariant forall l :: 0 <= l < j ==> d[0, l] == Distance(a[..0], b[..l])
    {
      Empty(b[..j]);
      d[0, j] := j;
    }
    for i := 1 to |a| + 1
      invariant RowsDone(a, b, d, i)
      invariant forall k :: i <= k <= |a| ==> d[k, 0] == k
    {
      Empty(a[..i]);
      FillRow(a, b, d, i);
    }
    assert a[..|a|] == a && b[..|b|] == b;
    distance := d[|a|, |b|];
  }

  /** The inner loop. */
  method FillRow(a: string, b: string, d: array2<nat>, i: nat)
    requires d.Length0 == |a| + 1 && d.Length1 == |b| + 1 && 1 <= i <= |a|
    requires RowsDone(a, b, d, i) && d[i, 0] == Distance(a[..i], b[..0])
    modifies d
    ensures RowsDone(a, b, d, i + 1)
    ensures forall k :: i < k <= |a| ==> d[k, 0] == old(d[k, 0])
  {
    hide Distance, Min;
    for j := 1 to |b| + 1
      invariant RowsDone(a, b, d, i)
      invariant forall l :: 0 <= l < j ==> d[i, l] == Distance(a[..i], b[..l])
      invariant forall k :: i < k <= |a| ==> d[k, 0] == old(d[k, 0])
    {
      Cell(a, b, i, j);
      var cost := if a[i - 1] == b[j - 1] then 0 else 1;
      var cell := Min(Min(d[i - 1, j] + 1, d[i, j - 1] + 1), d[i - 1, j - 1] + cost);
      if i > 1 && j > 1 && a[i - 1] == b[j - 2] && a[i - 2] == b[j - 1] {
        cell := Min(cell, d[i - 2, j - 2] + 1);
      }
      assert cell == Distance(a[..i], b[..j]);
      d[i, j] := cell;
    }
  }

  // ---------------------------------------------------------------- Alignments

  /** One edit of an alignment: each character takes part in one edit only. */
  datatype Edit =
    | Same(c: char)
    | Change(c: char, to: char)
    | Insert(to: char)
    | Delete(c: char)
    | Swap(c: char, next: char)

  function Source(edit: Edit): string {
    match edit
    case Same(c) => [c]
    case Change(c, _) => [c]
    case Insert(_) => ""
    case Delete(c) => [c]
    case Swap(c, next) => [c, next]
  }

  function Target(edit: Edit): string {
    match edit
    case Same(c) => [c]
    case Change(_, to) => [to]
    case Insert(to) => [to]
    case Delete(_) => ""
    case Swap(c, next) => [next, c]
  }

  function Sources(edits: seq<Edit>): string {
    if edits == [] then "" else Sources(edits[..|edits| - 1]) + Source(edits[|edits| - 1])
  }

  function Targets(edits: seq<Edit>): string {
    if edits == [] then "" else Targets(edits[..|edits| - 1]) + Target(edits[|edits| - 1])
  }

  /** The alignment turns a into b, edit after edit. */
  predicate Aligns(edits: seq<Edit>, a: string, b: string) {
    Sources(edits) == a && Targets(edits) == b
  }

  function Cost(edits: seq<Edit>): nat {
    if edits == [] then 0
    else Cost(edits[..|edits| - 1]) + EditCost(edits[|edits| - 1])
  }

  function EditCost(e: Edit): nat {
    if e.Same? then 0 else 1
  }

  /** One more edit costs at most what it costs. */
  lemma LastEdit(e: Edit, a: string, b: string)
    ensures Distance(a + Source(e), b + Target(e)) <= Distance(a, b) + EditCost(e)
  {
    hide Distance;
    match e
    case Same(c) =>
      LastPair(a, c, b, c);
    case Change(c, to) =>
      LastPair(a, c, b, to);
    case Insert(to) =>
      LastInsert(a, b, to);
      assert a + "" == a;
    case Delete(c) =>
      LastInsert(b, a, c);
      assert b + "" == b;
      Symmetric(b, a + [c]);
      Symmetric(b, a);
    case Swap(c, next) =>
      var a', b' := a + [c, next], b + [next, c];
      Unfold(a', b');
      assert a'[..|a|] == a && b'[..|b|] == b;
  }

  lemma LastPair(a: string, c: char, b: string, to: char)
    ensures Distance(a + [c], b + [to]) <= Distance(a, b) + if c == to then 0 else 1
  {
    Unfold(a + [c], b + [to]);
    hide Distance;
    assert (a + [c])[..|a|] == a && (b + [to])[..|b|] == b;
  }

  lemma LastInsert(a: string, b: string, to: char)
    ensures Distance(a, b + [to]) <= Distance(a, b) + 1
  {
    hide Distance;
    if a == "" {
      Empty(b);
      Empty(b + [to]);
    } else {
      Unfold(a, b + [to]);
      assert (b + [to])[..|b|] == b;
    }
  }

  /** No alignment costs less than the distance. */
  lemma {:induction false} DistanceIsLeast(edits: seq<Edit>)
    ensures Distance(Sources(edits), Targets(edits)) <= Cost(edits)
    decreases |edits|
  {
    if edits != [] {
      var front := edits[..|edits| - 1];
      DistanceIsLeast(front);
      LastEdit(edits[|edits| - 1], Sources(front), Targets(front));
    }
  }

  /** And some alignment costs just that. */
  lemma {:induction false} DistanceIsReached(a: string, b: string) returns (edits: seq<Edit>)
    ensures Aligns(edits, a, b) && Cost(edits) == Distance(a, b)
    decreases |a| + |b|
  {
    if a == "" && b == "" {
      edits := [];
    } else {
      var a', b', e := BestEdit(a, b);
      var front := DistanceIsReached(a', b');
      edits := front + [e];
      assert edits[..|edits| - 1] == front;
    }
  }

  lemma BestEdit(a: string, b: string) returns (a': string, b': string, e: Edit)
    requires a != "" || b != ""
    ensures a == a' + Source(e) && b == b' + Target(e) && |a'| + |b'| < |a| + |b|
    ensures Distance(a, b) == Distance(a', b') + EditCost(e)
  {
    hide Distance;
    if a == "" {
      a', b', e := a, b[..|b| - 1], Insert(b[|b| - 1]);
      Empty(b);
      Empty(b');
    } else if b == "" {
      a', b', e := a[..|a| - 1], b, Delete(a[|a| - 1]);
      Empty(a);
      Empty(a');
    } else {
      a', b', e := BestOfBoth(a, b);
    }
  }

  lemma BestOfBoth(a: string, b: string) returns (a': string, b': string, e: Edit)
    requires a != "" && b != ""
    ensures a == a' + Source(e) && b == b' + Target(e) && |a'| + |b'| < |a| + |b|
    ensures Distance(a, b) == Distance(a', b') + EditCost(e)
  {
    hide Distance;
    Unfold(a, b);
    var c, to := a[|a| - 1], b[|b| - 1];
    if Distance(a, b) == Distance(a[..|a| - 1], b) + 1 {
      a', b', e := a[..|a| - 1], b, Delete(c);
    } else if Distance(a, b) == Distance(a, b[..|b| - 1]) + 1 {
      a', b', e := a, b[..|b| - 1], Insert(to);
    } else if Distance(a, b) == Distance(a[..|a| - 1], b[..|b| - 1]) + (if c == to then 0 else 1) {
      a', b', e := a[..|a| - 1], b[..|b| - 1], if c == to then Same(c) else Change(c, to);
    } else {
      SplitTwo(a);
      SplitTwo(b);
      a', b', e := a[..|a| - 2], b[..|b| - 2], Swap(a[|a| - 2], c);
    }
  }

  lemma SplitTwo(a: string)
    requires |a| >= 2
    ensures a == a[..|a| - 2] + [a[|a| - 2], a[|a| - 1]]
  {
  }

  // ---------------------------------------------------------------- Laws

  lemma {:induction false} Symmetric(a: string, b: string)
    ensures Distance(a, b) == Distance(b, a)
    decreases |a| + |b|
  {
    hide Distance;
    if a == "" || b == "" {
      Empty(a);
      Empty(b);
    } else {
      Unfold(a, b);
      Unfold(b, a);
      Symmetric(a[..|a| - 1], b);
      Symmetric(a, b[..|b| - 1]);
      Symmetric(a[..|a| - 1], b[..|b| - 1]);
      if Swapped(a, b) {
        Symmetric(a[..|a| - 2], b[..|b| - 2]);
      }
    }
  }

  lemma {:induction false} ZeroIffEqual(a: string, b: string)
    ensures Distance(a, b) == 0 <==> a == b
    decreases |a| + |b|
  {
    hide Distance;
    if a == "" || b == "" {
      Empty(a);
      Empty(b);
    } else {
      Unfold(a, b);
      var a', b' := a[..|a| - 1], b[..|b| - 1];
      ZeroIffEqual(a', b');
      assert a == a' + [a[|a| - 1]] && b == b' + [b[|b| - 1]];
    }
  }

  lemma {:induction false} Bounds(a: string, b: string)
    ensures Distance(a, b) >= |a| - |b| && Distance(a, b) >= |b| - |a|
    ensures Distance(a, b) <= if |a| >= |b| then |a| else |b|
    decreases |a| + |b|
  {
    hide Distance;
    if a == "" || b == "" {
      Empty(a);
      Empty(b);
    } else {
      Unfold(a, b);
      Bounds(a[..|a| - 1], b);
      Bounds(a, b[..|b| - 1]);
      Bounds(a[..|a| - 1], b[..|b| - 1]);
      if Swapped(a, b) {
        Bounds(a[..|a| - 2], b[..|b| - 2]);
      }
    }
  }
}
