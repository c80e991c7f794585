/** applyMerges (internal/compose/load.go): replacing YAML 1.1 merge keys by the
    keys they merge, on trees without aliases. */
module Merges {
  import opened Wrappers

  datatype Node =
    | Scalar(tag: string, text: string)
    | Sequence(tag: string, items: seq<Node>)
    | Mapping(tag: string, pairs: seq<Pair>)

  datatype Pair = Pair(key: Node, value: Node)

  const MERGE_TAG := "!!merge"
  const MERGE_KEY := "<<"

  /** A node's Value, which only a scalar has. */
  function Value(n: Node): string {
    if n.Scalar? then n.text else ""
  }

  predicate IsMerge(p: Pair) {
    p.key.tag == MERGE_TAG
  }

  function Key(p: Pair): string {
    Value(p.key)
  }

  function Keys(pairs: seq<Pair>): set<string> {
    set p | p in pairs :: Key(p)
  }

  /** The keys the mapping sets itself. */
  function OwnKeys(pairs: seq<Pair>): set<string> {
    set p | p in pairs && Key(p) != MERGE_KEY :: Key(p)
  }

  // ---------------------------------------------------------------- The transformation

  function Sources(value: Node): seq<Node> {
    if value.Sequence? then value.items else [value]
  }

  /** The pairs whose keys are not taken yet, in order. */
  function TakeNew(pairs: seq<Pair>, taken: set<string>): seq<Pair> {
    if pairs == [] then []
    else if Key(pairs[0]) in taken then TakeNew(pairs[1..], taken)
    else [pairs[0]] + TakeNew(pairs[1..], taken + {Key(pairs[0])})
  }

  /** What several mappings merged add: the first to set a key wins. */
  function TakeAll(sources: seq<Node>, taken: set<string>): seq<Pair> {
    if sources == [] then []
    else
      var added := if sources[0].Mapping? then TakeNew(sources[0].pairs, taken) else [];
      added + TakeAll(sources[1..], taken + Keys(added))
  }

  function MergeFrom(pairs: seq<Pair>, taken: set<string>): seq<Pair> {
    if pairs == [] then []
    else if !IsMerge(pairs[0]) then [pairs[0]] + MergeFrom(pairs[1..], taken)
    else
      var added := TakeAll(Sources(pairs[0].value), taken);
      added + MergeFrom(pairs[1..], taken + Keys(added))
  }

  /** applyMerges: the children first, then the mapping itself. */
  function Applied(n: Node): Node
    decreases n
  {
    match n
    case Scalar(_, _) => n
    case Sequence(tag, items) => Sequence(tag, AppliedAll(items))
    case Mapping(tag, pairs) => Mapping(tag, MergeFrom(AppliedPairs(pairs), OwnKeys(AppliedPairs(pairs))))
  }

  function AppliedAll(items: seq<Node>): (r: seq<Node>)
    ensures |r| == |items|
    ensures forall i :: 0 <= i < |items| ==> r[i] == Applied(items[i])
    decreases items
  {
    if items == [] then [] else [Applied(items[0])] + AppliedAll(items[1..])
  }

  function AppliedPair(p: Pair): Pair
    decreases p
  {
    Pair(Applied(p.key), Applied(p.value))
  }

  function AppliedPairs(pairs: seq<Pair>): (r: seq<Pair>)
    ensures |r| == |pairs|
    ensures forall i :: 0 <= i < |pairs| ==> r[i] == AppliedPair(pairs[i])
    decreases pairs
  {
    if pairs == [] then [] else [AppliedPair(pairs[0])] + AppliedPairs(pairs[1..])
  }

  // ---------------------------------------------------------------- Meaning

  /** The value of the pair with the key, as a plain mapping is read. */
  function Find(pairs: seq<Pair>, k: string): Option<Node> {
    if pairs == [] then None
    else if Key(pairs[0]) == k && !IsMerge(pairs[0]) then Some(pairs[0].value)
    else Find(pairs[1..], k)
  }

  /** What a mapping with merge keys means: its own value of a key, or else the
      first that a merged mapping gives, merged mappings meaning the same. */
  function Lookup(n: Node, k: string): Option<Node>
    decreases n
  {
    if !n.Mapping? then None
    else if Find(n.pairs, k).Some? then Find(n.pairs, k)
    else LookupMerged(n.pairs, k)
  }

  function LookupMerged(pairs: seq<Pair>, k: string): Option<Node>
    decreases pairs
  {
    if pairs == [] then None
    else
      var first := LookupPair(pairs[0], k);
      if first.Some? then first else LookupMerged(pairs[1..], k)
  }

  /** What the mappings a merge key merges give. */
  function LookupPair(p: Pair, k: string): Option<Node>
    decreases p
  {
    if !IsMerge(p) then None
    else if p.value.Sequence? then LookupFirst(p.value.items, k)
    else Lookup(p.value, k)
  }

  function LookupFirst(sources: seq<Node>, k: string): Option<Node>
    decreases sources
  {
    if sources == [] then None
    else
      var first := Lookup(sources[0], k);
      if first.Some? then first else LookupFirst(sources[1..], k)
  }

  /** Any other key as it is read afterwards: as it means, except that a merge key
      spelt so, tagged by hand, counts as the mapping's own and hides merged ones. */
  function Seen(n: Node, k: string): Option<Node>
    decreases n
  {
    if !n.Mapping? then None
    else if Find(n.pairs, k).Some? then Find(n.pairs, k)
    else if IsTagged(n.pairs, k) then None
    else SeenMerged(n.pairs, k)
  }

  function SeenMerged(pairs: seq<Pair>, k: string): Option<Node>
    decreases pairs
  {
    if pairs == [] then None
    else if SeenPair(pairs[0], k).Some? then SeenPair(pairs[0], k)
    else SeenMerged(pairs[1..], k)
  }

  function SeenPair(p: Pair, k: string): Option<Node>
    decreases p
  {
    if !IsMerge(p) then None
    else if p.value.Sequence? then SeenFirst(p.value.items, k)
    else Seen(p.value, k)
  }

  function SeenFirst(sources: seq<Node>, k: string): Option<Node>
    decreases sources
  {
    if sources == [] then None
    else if Seen(sources[0], k).Some? then Seen(sources[0], k)
    else SeenFirst(sources[1..], k)
  }

  /** A key spelt << as it is read afterwards: the first in order, whether the
      mapping's own or one that a mapping merged there has. */
  function InOrder(n: Node): Option<Node>
    decreases n
  {
    if n.Mapping? then InOrderPairs(n.pairs) else None
  }

  function InOrderPairs(pairs: seq<Pair>): Option<Node>
    decreases pairs
  {
    if pairs == [] then None
    else if IsQuoted(pairs[0]) then Some(pairs[0].value)
    else if InOrderPair(pairs[0]).Some? then InOrderPair(pairs[0])
    else InOrderPairs(pairs[1..])
  }

  function InOrderPair(p: Pair): Option<Node>
    decreases p
  {
    if !IsMerge(p) then None
    else if p.value.Sequence? then InOrderFirst(p.value.items)
    else InOrder(p.value)
  }

  function InOrderFirst(sources: seq<Node>): Option<Node>
    decreases sources
  {
    if sources == [] then None
    else if InOrder(sources[0]).Some? then InOrder(sources[0])
    else InOrderFirst(sources[1..])
  }

  /** An ordinary key spelt like a merge key, quoted say. */
  predicate IsQuoted(p: Pair) {
    !IsMerge(p) && Key(p) == MERGE_KEY
  }

  // ---------------------------------------------------------------- Which trees

  predicate Unique(pairs: seq<Pair>) {
    forall i, j :: 0 <= i < j < |pairs| && !IsMerge(pairs[i]) && !IsMerge(pairs[j]) ==> Key(pairs[i]) != Key(pairs[j])
  }

  /** A key with the merge tag is spelt so; only << is tagged unless by hand. */
  predicate IsTagged(pairs: seq<Pair>, k: string) {
    exists i :: 0 <= i < |pairs| && IsMerge(pairs[i]) && Key(pairs[i]) == k
  }

  /** None is, in the mapping or in any below it. */
  predicate Untagged(n: Node, k: string)
    decreases n
  {
    match n
    case Scalar(_, _) => true
    case Sequence(_, items) => forall i :: 0 <= i < |items| ==> Untagged(items[i], k)
    case Mapping(_, pairs) =>
      !IsTagged(pairs, k) && forall i :: 0 <= i < |pairs| ==> Untagged(pairs[i].value, k)
  }

  predicate NoMerge(pairs: seq<Pair>) {
    forall i :: 0 <= i < |pairs| ==> !IsMerge(pairs[i])
  }

  /** No merge key anywhere. */
  predicate MergeFree(n: Node)
    decreases n
  {
    match n
    case Scalar(_, _) => true
    case Sequence(_, items) => forall i :: 0 <= i < |items| ==> MergeFree(items[i])
    case Mapping(_, pairs) =>
      && NoMerge(pairs)
      && forall i :: 0 <= i < |pairs| ==> MergeFree(pairs[i].key) && MergeFree(pairs[i].value)
  }

  /** Ordinary keys unique in every mapping. */
  predicate AllUnique(n: Node)
    decreases n
  {
    match n
    case Scalar(_, _) => true
    case Sequence(_, items) => forall i :: 0 <= i < |items| ==> AllUnique(items[i])
    case Mapping(_, pairs) =>
      && Unique(pairs)
      && forall i :: 0 <= i < |pairs| ==> AllUnique(pairs[i].key) && AllUnique(pairs[i].value)
  }

  // ---------------------------------------------------------------- What stays of a mapping

  function Size(n: Node): nat
    decreases n
  {
    match n
    case Scalar(_, _) => 1
    case Sequence(_, items) => 1 + ItemsSize(items)
    case Mapping(_, pairs) => 1 + PairsSize(pairs)
  }

  function ItemsSize(items: seq<Node>): nat
    decreases items
  {
    if items == [] then 0 else Size(items[0]) + ItemsSize(items[1..])
  }

  function PairSize(p: Pair): nat
    decreases p
  {
    1 + Size(p.key) + Size(p.value)
  }

  function PairsSize(pairs: seq<Pair>): nat
    decreases pairs
  {
    if pairs == [] then 0 else PairSize(pairs[0]) + PairsSize(pairs[1..])
  }

  /** The pairs of the tree that a mapping keeps and gets from those it merges,
      theirs worked out first, as they are in the tree. */
  function Flat(n: Node): (r: seq<Pair>)
    ensures NoMerge(r) && forall p :: p in r ==> PairSize(p) < Size(n)
    decreases n
  {
    if n.Mapping? then FlatPairs(n.pairs, OwnKeys(n.pairs)) else []
  }

  function FlatPairs(pairs: seq<Pair>, taken: set<string>): (r: seq<Pair>)
    ensures NoMerge(r) && forall p :: p in r ==> PairSize(p) <= PairsSize(pairs)
    decreases pairs
  {
    if pairs == [] then []
    else if !IsMerge(pairs[0]) then [pairs[0]] + FlatPairs(pairs[1..], taken)
    else
      var added := FlatMerged(pairs[0], taken);
      added + FlatPairs(pairs[1..], taken + Keys(added))
  }

  function FlatMerged(p: Pair, taken: set<string>): (r: seq<Pair>)
    ensures NoMerge(r) && forall q :: q in r ==> PairSize(q) <= PairSize(p)
    decreases p
  {
    if p.value.Sequence? then FlatAll(p.value.items, taken)
    else
      TakeNewIsPart(Flat(p.value), taken);
      TakeNew(Flat(p.value), taken)
  }

  function FlatAll(sources: seq<Node>, taken: set<string>): (r: seq<Pair>)
    ensures NoMerge(r) && forall p :: p in r ==> PairSize(p) <= ItemsSize(sources)
    decreases sources
  {
    if sources == [] then []
    else
      var added := TakeNew(Flat(sources[0]), taken);
      TakeNewIsPart(Flat(sources[0]), taken);
      added + FlatAll(sources[1..], taken + Keys(added))
  }

  lemma {:induction false} TakeNewIsPart(pairs: seq<Pair>, taken: set<string>)
    ensures forall p :: p in TakeNew(pairs, taken) ==> p in pairs
    ensures NoMerge(pairs) ==> NoMerge(TakeNew(pairs, taken))
    decreases |pairs|
  {
    if pairs != [] {
      TakeNewIsPart(pairs[1..], taken);
      TakeNewIsPart(pairs[1..], taken + {Key(pairs[0])});
    }
  }

  // ---------------------------------------------------------------- The loops

  lemma TakeNewStep(pairs: seq<Pair>, j: nat, taken: set<string>)
    requires j < |pairs|
    ensures TakeNew(pairs[j..], taken) ==
            if Key(pairs[j]) in taken then TakeNew(pairs[j + 1..], taken)
            else [pairs[j]] + TakeNew(pairs[j + 1..], taken + {Key(pairs[j])})
  {
    assert pairs[j..][1..] == pairs[j + 1..];
  }

  lemma TakeNothing(taken: set<string>)
    ensures TakeNew([], taken) == [] && TakeAll([], taken) == [] && MergeFrom([], taken) == [] && Keys([]) == {}
  {
  }

  /** The innermost loop: the pairs of one merged mapping not taken yet. */
  method AddNew(pairs: seq<Pair>, own: set<string>) returns (added: seq<Pair>, own': set<string>)
    ensures added == TakeNew(pairs, own) && own' == own + Keys(added)
  {
    hide TakeNew, Keys;
    added, own' := [], own;
    TakeNothing(own);
    for j := 0 to |pairs|
      invariant added + TakeNew(pairs[j..], own') == TakeNew(pairs, own) && own' == own + Keys(added)
    {
      TakeNewStep(pairs, j, own');
      if Key(pairs[j]) !in own' {
        KeysAppend(added, pairs[j]);
        own' := own' + {Key(pairs[j])};
        added := added + [pairs[j]];
      }
    }
    TakeNothing(own');
    assert pairs[|pairs|..] == [] && added + [] == added;
  }

  lemma KeysAppend(pairs: seq<Pair>, p: Pair)
    ensures Keys(pairs + [p]) == Keys(pairs) + {Key(p)}
  {
    assert forall x :: x in pairs + [p] <==> x in pairs || x == p;
    assert p in pairs + [p];
  }

  lemma KeysConcat(a: seq<Pair>, b: seq<Pair>)
    ensures Keys(a + b) == Keys(a) + Keys(b)
  {
    assert forall x :: x in a + b <==> x in a || x in b;
  }

  lemma TakeAllStep(sources: seq<Node>, j: nat, taken: set<string>)
    requires j < |sources|
    ensures var added := if sources[j].Mapping? then TakeNew(sources[j].pairs, taken) else [];
            TakeAll(sources[j..], taken) == added + TakeAll(sources[j + 1..], taken + Keys(added))
  {
    hide TakeNew, Keys;
    assert sources[j..][1..] == sources[j + 1..];
  }

  /** The loop over the mappings of one merge key. */
  method AddAll(sources: seq<Node>, own: set<string>) returns (added: seq<Pair>, own': set<string>)
    ensures added == TakeAll(sources, own) && own' == own + Keys(added)
  {
    hide TakeNew, TakeAll, Keys;
    added, own' := [], own;
    TakeNothing(own);
    for j := 0 to |sources|
      invariant added + TakeAll(sources[j..], own') == TakeAll(sources, own) && own' == own + Keys(added)
    {
      TakeAllStep(sources, j, own');
      var more: seq<Pair>, next := [], own';
      if sources[j].Mapping? {
        more, next := AddNew(sources[j].pairs, own');
      }
      TakeNothing(own');
      KeysConcat(added, more);
      assert next == own' + Keys(more);
      var rest := TakeAll(sources[j + 1..], next);
      assert added + (more + rest) == added + more + rest;
      added, own' := added + more, next;
    }
    TakeNothing(own');
    assert sources[|sources|..] == [] && added + [] == added;
  }

  lemma MergeStep(pairs: seq<Pair>, i: nat, taken: set<string>)
    requires i < |pairs|
    ensures var added := if IsMerge(pairs[i]) then TakeAll(Sources(pairs[i].value), taken) else [pairs[i]];
            MergeFrom(pairs[i..], taken) ==
            added + MergeFrom(pairs[i + 1..], if IsMerge(pairs[i]) then taken + Keys(added) else taken)
  {
    hide TakeAll, Keys;
    assert pairs[i..][1..] == pairs[i + 1..];
  }

  /** The loop over a mapping's pairs. */
  method MergePairs(pairs: seq<Pair>) returns (merged: seq<Pair>)
    ensures merged == MergeFrom(pairs, OwnKeys(pairs))
  {
    var own := OwnKeys(pairs);
    hide MergeFrom, TakeAll, Keys, OwnKeys;
    merged := [];
    for i := 0 to |pairs|
      invariant merged + MergeFrom(pairs[i..], own) == MergeFrom(pairs, OwnKeys(pairs))
    {
      MergeStep(pairs, i, own);
      if !IsMerge(pairs[i]) {
        merged := merged + [pairs[i]];
      } else {
        var added, own' := AddAll(Sources(pairs[i].value), own);
        merged, own := merged + added, own';
      }
    }
    TakeNothing(own);
    assert pairs[|pairs|..] == [] && merged + [] == merged;
  }

  /** applyMerges, giving the new node where the source rewrites Content. */
  method ApplyMerges(n: Node) returns (done: Node)
    ensures done == Applied(n)
    decreases n
  {
    match n {
      case Scalar(_, _) =>
        done := n;
      case Sequence(tag, items) =>
        var content := [];
        for i := 0 to |items|
          invariant |content| == i && forall j :: 0 <= j < i ==> content[j] == Applied(items[j])
        {
          var item := ApplyMerges(items[i]);
          content := content + [item];
        }
        assert content == AppliedAll(items);
        done := Sequence(tag, content);
      case Mapping(tag, pairs) =>
        var content := [];
        for i := 0 to |pairs|
          invariant |content| == i && forall j :: 0 <= j < i ==> content[j] == AppliedPair(pairs[j])
        {
          var key := ApplyMerges(pairs[i].key);
          var value := ApplyMerges(pairs[i].value);
          content := content + [Pair(key, value)];
        }
        assert content == AppliedPairs(pairs);
        var merged := MergePairs(content);
        done := Mapping(tag, merged);
    }
  }
}
