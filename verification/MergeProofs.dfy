/** What replacing merge keys gives: a tree without them that a second run does not
    change, and in which every key is read as it means. */
module MergeProofs {
  import opened Wrappers
  import opened Merges

  // ---------------------------------------------------------------- The result is what stays, done

  lemma AppliedKeepsKey(p: Pair)
    ensures Key(AppliedPair(p)) == Key(p) && IsMerge(AppliedPair(p)) == IsMerge(p)
  {
  }

  lemma {:induction false} AppliedConcat(a: seq<Pair>, b: seq<Pair>)
    ensures AppliedPairs(a + b) == AppliedPairs(a) + AppliedPairs(b)
    decreases |a|
  {
    hide AppliedPair;
    if a == [] {
      assert a + b == b && AppliedPairs(a) + AppliedPairs(b) == AppliedPairs(b);
    } else {
      assert (a + b)[1..] == a[1..] + b;
      AppliedConcat(a[1..], b);
    }
  }

  lemma KeysApplied(pairs: seq<Pair>)
    ensures Keys(AppliedPairs(pairs)) == Keys(pairs)
    ensures OwnKeys(AppliedPairs(pairs)) == OwnKeys(pairs)
  {
    hide AppliedPair, Key, Keys, OwnKeys;
    forall i | 0 <= i < |pairs|
      ensures Key(AppliedPairs(pairs)[i]) == Key(pairs[i])
    {
      AppliedKeepsKey(pairs[i]);
    }
    SameKeys(AppliedPairs(pairs), pairs);
    SameKeys(pairs, AppliedPairs(pairs));
  }

  lemma SameKeys(a: seq<Pair>, b: seq<Pair>)
    requires |a| == |b| && forall i :: 0 <= i < |a| ==> Key(a[i]) == Key(b[i])
    ensures Keys(a) <= Keys(b) && OwnKeys(a) <= OwnKeys(b)
  {
    hide Key;
    forall p | p in a
      ensures Key(p) in Keys(b) && (Key(p) != MERGE_KEY ==> Key(p) in OwnKeys(b))
    {
      var i :| 0 <= i < |a| && a[i] == p;
      assert b[i] in b && Key(b[i]) == Key(p);
    }
  }

  lemma {:induction false} TakeNewApplied(pairs: seq<Pair>, taken: set<string>)
    ensures TakeNew(AppliedPairs(pairs), taken) == AppliedPairs(TakeNew(pairs, taken))
    decreases |pairs|
  {
    hide AppliedPair;
    if pairs != [] {
      var done := AppliedPairs(pairs);
      AppliedKeepsKey(pairs[0]);
      assert done[1..] == AppliedPairs(pairs[1..]);
      if Key(pairs[0]) in taken {
        TakeNewApplied(pairs[1..], taken);
      } else {
        var rest := TakeNew(pairs[1..], taken + {Key(pairs[0])});
        TakeNewApplied(pairs[1..], taken + {Key(pairs[0])});
        AppliedConcat([pairs[0]], rest);
        AppliedOne(pairs[0]);
      }
    }
  }

  lemma AppliedOne(p: Pair)
    ensures AppliedPairs([p]) == [AppliedPair(p)]
  {
  }

  /** applyMerges of a mapping gives what stays of it, with the children done. */
  lemma {:induction false} AppliedIsFlat(n: Node)
    requires n.Mapping?
    ensures Applied(n) == Mapping(n.tag, AppliedPairs(Flat(n)))
    decreases n, 0
  {
    KeysApplied(n.pairs);
    PairsAreFlat(n.pairs, OwnKeys(n.pairs));
  }

  lemma {:induction false} PairsAreFlat(pairs: seq<Pair>, taken: set<string>)
    ensures MergeFrom(AppliedPairs(pairs), taken) == AppliedPairs(FlatPairs(pairs, taken))
    decreases pairs
  {
    hide AppliedPair, TakeAll, Flat, FlatMerged;
    if pairs != [] {
      var done := AppliedPairs(pairs);
      AppliedKeepsKey(pairs[0]);
      assert done[1..] == AppliedPairs(pairs[1..]);
      if !IsMerge(pairs[0]) {
        PairsAreFlat(pairs[1..], taken);
        AppliedConcat([pairs[0]], FlatPairs(pairs[1..], taken));
        AppliedOne(pairs[0]);
      } else {
        var added := FlatMerged(pairs[0], taken);
        MergedIsFlat(pairs[0], taken);
        KeysApplied(added);
        PairsAreFlat(pairs[1..], taken + Keys(added));
        AppliedConcat(added, FlatPairs(pairs[1..], taken + Keys(added)));
      }
    }
  }

  lemma {:induction false} MergedIsFlat(p: Pair, taken: set<string>)
    ensures TakeAll(Sources(AppliedPair(p).value), taken) == AppliedPairs(FlatMerged(p, taken))
    decreases p
  {
    SourcesApplied(p.value);
    if p.value.Sequence? {
      AllAreFlat(p.value.items, taken);
    } else {
      SourceIsFlat(p.value, taken);
      TakeAllOne(Applied(p.value), taken);
    }
  }

  lemma {:induction false} AllAreFlat(sources: seq<Node>, taken: set<string>)
    ensures TakeAll(AppliedAll(sources), taken) == AppliedPairs(FlatAll(sources, taken))
    decreases sources
  {
    hide Applied, AppliedPair, TakeNew, Flat;
    if sources != [] {
      assert AppliedAll(sources)[1..] == AppliedAll(sources[1..]);
      var added := TakeNew(Flat(sources[0]), taken);
      SourceIsFlat(sources[0], taken);
      KeysApplied(added);
      AllAreFlat(sources[1..], taken + Keys(added));
      AppliedConcat(added, FlatAll(sources[1..], taken + Keys(added)));
    }
  }

  lemma {:induction false} SourceIsFlat(source: Node, taken: set<string>)
    ensures Added(Applied(source), taken) == AppliedPairs(TakeNew(Flat(source), taken))
    decreases source, 1
  {
    if source.Mapping? {
      AppliedIsFlat(source);
      TakeNewApplied(Flat(source), taken);
    }
  }

  /** What one merged mapping adds. */
  function Added(source: Node, taken: set<string>): seq<Pair> {
    if source.Mapping? then TakeNew(source.pairs, taken) else []
  }

  lemma TakeAllOne(source: Node, taken: set<string>)
    ensures TakeAll([source], taken) == Added(source, taken)
  {
    assert [source][1..] == [];
    assert TakeAll([], taken + Keys(Added(source, taken))) == [];
  }

  lemma SourcesApplied(value: Node)
    ensures Sources(Applied(value)) == if value.Sequence? then AppliedAll(value.items) else [Applied(value)]
  {
  }

  // ---------------------------------------------------------------- No merge key is left

  /** Whatever the tree. */
  lemma {:induction false} AppliedIsMergeFree(n: Node)
    ensures MergeFree(Applied(n))
    decreases Size(n)
  {
    match n
    case Scalar(_, _) =>
    case Sequence(_, items) =>
      forall i | 0 <= i < |items|
        ensures MergeFree(Applied(items[i]))
      {
        ItemIsSmaller(items, i);
        AppliedIsMergeFree(items[i]);
      }
    case Mapping(_, _) =>
      AppliedIsFlat(n);
      var flat := Flat(n);
      forall i | 0 <= i < |flat|
        ensures MergeFree(AppliedPair(flat[i]).key) && MergeFree(AppliedPair(flat[i]).value)
        ensures !IsMerge(AppliedPair(flat[i]))
      {
        assert flat[i] in flat;
        AppliedIsMergeFree(flat[i].key);
        AppliedIsMergeFree(flat[i].value);
        AppliedKeepsKey(flat[i]);
      }
      MergeFreeMapping(n.tag, AppliedPairs(flat));
  }

  lemma MergeFreeMapping(tag: string, pairs: seq<Pair>)
    requires NoMerge(pairs) && forall i :: 0 <= i < |pairs| ==> MergeFree(pairs[i].key) && MergeFree(pairs[i].value)
    ensures MergeFree(Mapping(tag, pairs))
  {
  }

  lemma {:induction false} ItemIsSmaller(items: seq<Node>, i: nat)
    requires i < |items|
    ensures Size(items[i]) <= ItemsSize(items)
    decreases |items|
  {
    if i > 0 {
      ItemIsSmaller(items[1..], i - 1);
    }
  }

  /** A tree without merge keys is left as it is. */
  lemma {:induction false} MergeFreeIsFixed(n: Node)
    requires MergeFree(n)
    ensures Applied(n) == n
    decreases n
  {
    match n
    case Scalar(_, _) =>
    case Sequence(_, items) =>
      forall i | 0 <= i < |items|
        ensures Applied(items[i]) == items[i]
      {
        MergeFreeIsFixed(items[i]);
      }
    case Mapping(_, pairs) =>
      forall i | 0 <= i < |pairs|
        ensures AppliedPair(pairs[i]) == pairs[i]
      {
        MergeFreeIsFixed(pairs[i].key);
        MergeFreeIsFixed(pairs[i].value);
      }
      assert AppliedPairs(pairs) == pairs;
      NothingToMerge(pairs, OwnKeys(pairs));
  }

  lemma {:induction false} NothingToMerge(pairs: seq<Pair>, taken: set<string>)
    requires NoMerge(pairs)
    ensures MergeFrom(pairs, taken) == pairs
    decreases |pairs|
  {
    if pairs != [] {
      NothingToMerge(pairs[1..], taken);
    }
  }

  /** A second run changes nothing, whatever the tree. */
  lemma TwiceIsOnce(n: Node)
    ensures Applied(Applied(n)) == Applied(n)
  {
    AppliedIsMergeFree(n);
    MergeFreeIsFixed(Applied(n));
  }

  // ---------------------------------------------------------------- Reading lists of pairs

  lemma {:induction false} FindConcat(a: seq<Pair>, b: seq<Pair>, k: string)
    ensures Find(a + b, k) == if Find(a, k).Some? then Find(a, k) else Find(b, k)
    decreases |a|
  {
    if a == [] {
      assert a + b == b;
    } else {
      assert (a + b)[1..] == a[1..] + b;
      FindConcat(a[1..], b, k);
    }
  }

  /** The pair is an ordinary one with this scalar for a key, or with a key that is no
      scalar where the key asked for is empty. */
  predicate Gives(p: Pair, k: string) {
    p.key.tag != "!!merge" && (if p.key.Scalar? then p.key.text == k else k == "")
  }

  /** The first pair that gives the key is the one found, and none only if none does. */
  lemma {:induction false} FindIsFirst(pairs: seq<Pair>, k: string, i: nat)
    requires i <= |pairs| && (forall j :: 0 <= j < i ==> !Gives(pairs[j], k)) && (i < |pairs| ==> Gives(pairs[i], k))
    ensures Find(pairs, k) == if i < |pairs| then Some(pairs[i].value) else None
    decreases i
  {
    if i > 0 {
      FindIsFirst(pairs[1..], k, i - 1);
    }
  }

  lemma {:induction false} FindNone(pairs: seq<Pair>, k: string)
    requires NoMerge(pairs)
    ensures Find(pairs, k).Some? <==> k in Keys(pairs)
    decreases |pairs|
  {
    if pairs != [] {
      FindNone(pairs[1..], k);
      assert pairs == [pairs[0]] + pairs[1..];
    }
  }

  lemma {:induction false} TakeNewFinds(pairs: seq<Pair>, taken: set<string>, k: string)
    requires NoMerge(pairs)
    ensures Find(TakeNew(pairs, taken), k) == if k in taken then None else Find(pairs, k)
    decreases |pairs|
  {
    if pairs != [] {
      if Key(pairs[0]) in taken {
        TakeNewFinds(pairs[1..], taken, k);
      } else {
        TakeNewFinds(pairs[1..], taken + {Key(pairs[0])}, k);
        FindConcat([pairs[0]], TakeNew(pairs[1..], taken + {Key(pairs[0])}), k);
      }
    }
  }

  // ---------------------------------------------------------------- Reading what stays

  /** What a key is read as. */
  function Read(n: Node, k: string): Option<Node> {
    if k == MERGE_KEY then InOrder(n) else Seen(n, k)
  }

  function ReadPair(p: Pair, k: string): Option<Node> {
    if k == MERGE_KEY then InOrderPair(p) else SeenPair(p, k)
  }

  function ReadFirst(sources: seq<Node>, k: string): Option<Node> {
    if k == MERGE_KEY then InOrderFirst(sources) else SeenFirst(sources, k)
  }

  /** The ordinary keys are taken, but for one spelt <<, which never is. */
  predicate OwnTaken(pairs: seq<Pair>, taken: set<string>) {
    forall i :: 0 <= i < |pairs| && !IsMerge(pairs[i]) && Key(pairs[i]) != MERGE_KEY ==> Key(pairs[i]) in taken
  }

  lemma OwnAreTaken(pairs: seq<Pair>)
    ensures OwnTaken(pairs, OwnKeys(pairs)) && MERGE_KEY !in OwnKeys(pairs)
  {
    assert forall i :: 0 <= i < |pairs| ==> pairs[i] in pairs;
  }

  /** Reading a key of what stays of a mapping is reading it in the tree. */
  lemma {:induction false} FlatReads(n: Node, k: string)
    ensures Find(Flat(n), k) == Read(n, k)
    decreases n, 0
  {
    if n.Mapping? {
      var own := OwnKeys(n.pairs);
      OwnAreTaken(n.pairs);
      if k == MERGE_KEY {
        QuotedReads(n.pairs, own);
      } else {
        PairsRead(n.pairs, own, k);
        OwnAreFound(n.pairs, k);
      }
    }
  }

  lemma {:induction false} PairsRead(pairs: seq<Pair>, taken: set<string>, k: string)
    requires OwnTaken(pairs, taken) && k != MERGE_KEY
    ensures Find(FlatPairs(pairs, taken), k) ==
            if Find(pairs, k).Some? then Find(pairs, k)
            else if k in taken then None else SeenMerged(pairs, k)
    decreases pairs
  {
    hide SeenPair, FlatMerged;
    if pairs != [] {
      if !IsMerge(pairs[0]) {
        PairsRead(pairs[1..], taken, k);
        FindConcat([pairs[0]], FlatPairs(pairs[1..], taken), k);
        NotMergeSeen(pairs[0], k);
      } else {
        var added := FlatMerged(pairs[0], taken);
        MergedReads(pairs[0], taken, k);
        FindNone(added, k);
        PairsRead(pairs[1..], taken + Keys(added), k);
        FindConcat(added, FlatPairs(pairs[1..], taken + Keys(added)), k);
        FindTaken(pairs[1..], taken, k);
      }
    }
  }

  lemma NotMergeSeen(p: Pair, k: string)
    requires !IsMerge(p)
    ensures SeenPair(p, k) == None
  {
  }

  lemma NotMergePair(p: Pair, k: string)
    requires !IsMerge(p)
    ensures LookupPair(p, k) == None
  {
  }

  lemma {:induction false} FindTaken(pairs: seq<Pair>, taken: set<string>, k: string)
    requires OwnTaken(pairs, taken) && k != MERGE_KEY
    ensures Find(pairs, k).Some? ==> k in taken
    decreases |pairs|
  {
    if pairs != [] {
      FindTaken(pairs[1..], taken, k);
    }
  }

  lemma {:induction false} QuotedReads(pairs: seq<Pair>, taken: set<string>)
    requires MERGE_KEY !in taken
    ensures Find(FlatPairs(pairs, taken), MERGE_KEY) == InOrderPairs(pairs)
    decreases pairs
  {
    hide InOrderPair, FlatMerged;
    if pairs != [] {
      if !IsMerge(pairs[0]) {
        QuotedReads(pairs[1..], taken);
        FindConcat([pairs[0]], FlatPairs(pairs[1..], taken), MERGE_KEY);
        NotMergeInOrder(pairs[0]);
      } else {
        var added := FlatMerged(pairs[0], taken);
        MergedReads(pairs[0], taken, MERGE_KEY);
        FindNone(added, MERGE_KEY);
        if MERGE_KEY !in Keys(added) {
          QuotedReads(pairs[1..], taken + Keys(added));
        }
        FindConcat(added, FlatPairs(pairs[1..], taken + Keys(added)), MERGE_KEY);
      }
    }
  }

  lemma NotMergeInOrder(p: Pair)
    requires !IsMerge(p)
    ensures InOrderPair(p) == None
  {
  }

  lemma {:induction false} MergedReads(p: Pair, taken: set<string>, k: string)
    requires IsMerge(p)
    ensures Find(FlatMerged(p, taken), k) == if k in taken then None else ReadPair(p, k)
    decreases p
  {
    if p.value.Sequence? {
      AllRead(p.value.items, taken, k);
    } else {
      FlatReads(p.value, k);
      TakeNewFinds(Flat(p.value), taken, k);
    }
  }

  lemma {:induction false} AllRead(sources: seq<Node>, taken: set<string>, k: string)
    ensures Find(FlatAll(sources, taken), k) == if k in taken then None else ReadFirst(sources, k)
    decreases sources
  {
    hide Seen, InOrder, Flat, TakeNew;
    if sources != [] {
      var added := TakeNew(Flat(sources[0]), taken);
      FlatReads(sources[0], k);
      TakeNewFinds(Flat(sources[0]), taken, k);
      TakeNewIsPart(Flat(sources[0]), taken);
      FindNone(added, k);
      AllRead(sources[1..], taken + Keys(added), k);
      FindConcat(added, FlatAll(sources[1..], taken + Keys(added)), k);
    }
  }

  lemma {:induction false} OwnAreFound(pairs: seq<Pair>, k: string)
    requires k != MERGE_KEY
    ensures k in OwnKeys(pairs) <==> Find(pairs, k).Some? || IsTagged(pairs, k)
    decreases |pairs|
  {
    if pairs != [] {
      OwnAreFound(pairs[1..], k);
      assert pairs == [pairs[0]] + pairs[1..];
      TaggedFirst(pairs, k);
    }
  }

  lemma TaggedFirst(pairs: seq<Pair>, k: string)
    requires pairs != []
    ensures IsTagged(pairs, k) <==> (IsMerge(pairs[0]) && Key(pairs[0]) == k) || IsTagged(pairs[1..], k)
  {
    if IsTagged(pairs[1..], k) {
      var i :| 0 <= i < |pairs[1..]| && IsMerge(pairs[1..][i]) && Key(pairs[1..][i]) == k;
      assert IsMerge(pairs[i + 1]) && Key(pairs[i + 1]) == k;
    }
    if IsTagged(pairs, k) {
      var i :| 0 <= i < |pairs| && IsMerge(pairs[i]) && Key(pairs[i]) == k;
      if i > 0 {
        assert pairs[1..][i - 1] == pairs[i];
      }
    }
  }

  // ---------------------------------------------------------------- Meaning is kept

  function MapApplied(v: Option<Node>): Option<Node> {
    match v case None => None case Some(n) => Some(Applied(n))
  }

  /** Reading a key of the done mapping is looking it up in the original. */
  predicate Means(n: Node, k: string) {
    n.Mapping? ==> Applied(n).Mapping? && Find(Applied(n).pairs, k) == MapApplied(Lookup(n, k))
  }

  lemma {:induction false} FindApplied(pairs: seq<Pair>, k: string)
    ensures Find(AppliedPairs(pairs), k) == MapApplied(Find(pairs, k))
    decreases |pairs|
  {
    hide Applied;
    if pairs != [] {
      AppliedKeepsKey(pairs[0]);
      FindApplied(pairs[1..], k);
    }
  }

  /** What every key of every done mapping is read as. */
  lemma AppliedReads(n: Node, k: string)
    requires n.Mapping?
    ensures Applied(n).Mapping? && Find(Applied(n).pairs, k) == MapApplied(Read(n, k))
  {
    hide Applied, Flat, Read;
    AppliedIsFlat(n);
    FlatReads(n, k);
    FindApplied(Flat(n), k);
  }

  // Without a merge key spelt so, a key is seen as it means.

  lemma {:induction false} SeenIsLookup(n: Node, k: string)
    requires Untagged(n, k)
    ensures Seen(n, k) == Lookup(n, k)
    decreases n, 0
  {
    if n.Mapping? {
      MergedIsLookup(n.pairs, k);
    }
  }

  lemma {:induction false} MergedIsLookup(pairs: seq<Pair>, k: string)
    requires forall i :: 0 <= i < |pairs| && IsMerge(pairs[i]) ==> Untagged(pairs[i].value, k)
    ensures SeenMerged(pairs, k) == LookupMerged(pairs, k)
    decreases pairs
  {
    hide SeenPair, LookupPair, Untagged;
    if pairs != [] {
      if IsMerge(pairs[0]) {
        PairIsLookup(pairs[0], k);
      } else {
        NotMergeSeen(pairs[0], k);
        NotMergePair(pairs[0], k);
      }
      MergedIsLookup(pairs[1..], k);
    }
  }

  lemma {:induction false} PairIsLookup(p: Pair, k: string)
    requires Untagged(p.value, k)
    ensures SeenPair(p, k) == LookupPair(p, k)
    decreases p
  {
    if p.value.Sequence? {
      FirstIsLookup(p.value.items, k);
    } else {
      SeenIsLookup(p.value, k);
    }
  }

  lemma {:induction false} FirstIsLookup(sources: seq<Node>, k: string)
    requires forall i :: 0 <= i < |sources| ==> Untagged(sources[i], k)
    ensures SeenFirst(sources, k) == LookupFirst(sources, k)
    decreases sources
  {
    hide Seen, Lookup, Untagged;
    if sources != [] {
      SeenIsLookup(sources[0], k);
      FirstIsLookup(sources[1..], k);
    }
  }

  /** applyMerges preserves meaning: in every mapping a key reads as its own value, or
      else as the first that a merged mapping gives, unless the key is spelt << or a
      merge key is tagged by hand and spelt so. */
  lemma AppliedMeans(n: Node, k: string)
    requires k != MERGE_KEY && Untagged(n, k)
    ensures Means(n, k)
  {
    hide Applied, Lookup, Seen, Untagged;
    if n.Mapping? {
      AppliedReads(n, k);
      SeenIsLookup(n, k);
    }
  }

  /** Exactly when such a key, in this mapping alone, changes a meaning: when it hides
      one that is merged. */
  lemma TaggedMeansIff(n: Node, k: string)
    requires n.Mapping? && k != MERGE_KEY
    requires forall i :: 0 <= i < |n.pairs| && IsMerge(n.pairs[i]) ==> Untagged(n.pairs[i].value, k)
    ensures Means(n, k) <==> !(IsTagged(n.pairs, k) && Find(n.pairs, k).None? && LookupMerged(n.pairs, k).Some?)
  {
    hide Applied, Untagged, IsTagged, Find;
    AppliedReads(n, k);
    MergedIsLookup(n.pairs, k);
  }
}
