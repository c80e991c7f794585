/** An ordinary key spelt << (quoted, say) is not counted among a mapping's own when
    merge keys are replaced. Exactly when that matters: when it is read as another
    mapping's, and when it is left twice. */
module MergeKeys {
  import opened Wrappers
  import opened Merges
  import opened MergeProofs

  // ---------------------------------------------------------------- Vocabulary

  /** Where the mapping's own key spelt << is, or the end. */
  function QuotedAt(pairs: seq<Pair>): (i: nat)
    ensures i <= |pairs| && (i < |pairs| ==> IsQuoted(pairs[i]))
    ensures forall j :: 0 <= j < i ==> !IsQuoted(pairs[j])
  {
    if pairs == [] || IsQuoted(pairs[0]) then 0 else 1 + QuotedAt(pairs[1..])
  }

  /** The first mapping merged that has a key spelt <<, its own or merged in turn. */
  function FirstSpeller(pairs: seq<Pair>): (r: Option<Node>)
    ensures r.Some? ==> InOrder(r.value).Some? && Size(r.value) <= PairsSize(pairs)
  {
    if pairs == [] then None
    else if IsMerge(pairs[0]) && SpellerOf(pairs[0]).Some? then SpellerOf(pairs[0])
    else FirstSpeller(pairs[1..])
  }

  function SpellerOf(p: Pair): (r: Option<Node>)
    ensures r.Some? ==> InOrder(r.value).Some? && Size(r.value) <= PairSize(p)
  {
    if p.value.Sequence? then SpellerAmong(p.value.items)
    else if InOrder(p.value).Some? then Some(p.value) else None
  }

  function SpellerAmong(sources: seq<Node>): (r: Option<Node>)
    ensures r.Some? ==> InOrder(r.value).Some? && Size(r.value) <= ItemsSize(sources)
  {
    if sources == [] then None
    else if InOrder(sources[0]).Some? then Some(sources[0])
    else SpellerAmong(sources[1..])
  }

  // ---------------------------------------------------------------- When << keeps its meaning

  /** The key spelt << is not read as a mapping's merged before the own one: none has
      it there, or it has the same value. Without an own one, the same must hold of
      the first mapping merged that has it. */
  predicate KeepsQuoted(n: Node)
    decreases Size(n)
  {
    n.Mapping? ==>
      var i := QuotedAt(n.pairs);
      if i < |n.pairs| then
        FirstSpeller(n.pairs[..i]).Some? ==>
          Applied(InOrder(FirstSpeller(n.pairs[..i]).value).value) == Applied(n.pairs[i].value)
      else
        FirstSpeller(n.pairs).Some? ==> KeepsQuoted(FirstSpeller(n.pairs).value)
  }

  lemma {:induction false} FindQuoted(pairs: seq<Pair>)
    ensures Find(pairs, MERGE_KEY) ==
            if QuotedAt(pairs) < |pairs| then Some(pairs[QuotedAt(pairs)].value) else None
    decreases |pairs|
  {
    if pairs != [] && !IsQuoted(pairs[0]) {
      FindQuoted(pairs[1..]);
    }
  }

  lemma {:induction false} AmongInOrder(sources: seq<Node>)
    ensures InOrderFirst(sources) ==
            if SpellerAmong(sources).Some? then InOrder(SpellerAmong(sources).value) else None
    decreases |sources|
  {
    hide InOrder;
    if sources != [] {
      AmongInOrder(sources[1..]);
    }
  }

  lemma PairInOrder(p: Pair)
    requires IsMerge(p)
    ensures InOrderPair(p) == if SpellerOf(p).Some? then InOrder(SpellerOf(p).value) else None
  {
    if p.value.Sequence? {
      AmongInOrder(p.value.items);
    }
  }

  lemma {:induction false} PairsInOrder(pairs: seq<Pair>)
    ensures var i := QuotedAt(pairs);
            InOrderPairs(pairs) ==
            if FirstSpeller(pairs[..i]).Some? then InOrder(FirstSpeller(pairs[..i]).value)
            else if i < |pairs| then Some(pairs[i].value) else None
    decreases |pairs|
  {
    hide InOrder, InOrderPair, SpellerOf;
    if pairs != [] && !IsQuoted(pairs[0]) {
      var i := QuotedAt(pairs[1..]);
      PairsInOrder(pairs[1..]);
      assert pairs[..i + 1][1..] == pairs[1..][..i];
      if IsMerge(pairs[0]) {
        PairInOrder(pairs[0]);
      } else {
        NotMergeInOrder(pairs[0]);
      }
    }
  }

  /** In order or by meaning, a key spelt << is found or it is not. */
  lemma {:induction false} FoundEitherWay(n: Node)
    ensures InOrder(n).Some? <==> Lookup(n, MERGE_KEY).Some?
    decreases n, 0
  {
    if n.Mapping? {
      FindQuoted(n.pairs);
      PairsEitherWay(n.pairs);
    }
  }

  lemma {:induction false} PairsEitherWay(pairs: seq<Pair>)
    ensures InOrderPairs(pairs).Some? <==> Find(pairs, MERGE_KEY).Some? || LookupMerged(pairs, MERGE_KEY).Some?
    decreases pairs
  {
    hide InOrderPair, LookupPair;
    if pairs != [] {
      PairsEitherWay(pairs[1..]);
      PairEitherWay(pairs[0]);
    }
  }

  lemma {:induction false} PairEitherWay(p: Pair)
    ensures InOrderPair(p).Some? <==> LookupPair(p, MERGE_KEY).Some?
    decreases p
  {
    if p.value.Sequence? {
      FirstEitherWay(p.value.items);
    } else {
      FoundEitherWay(p.value);
    }
  }

  lemma {:induction false} FirstEitherWay(sources: seq<Node>)
    ensures InOrderFirst(sources).Some? <==> LookupFirst(sources, MERGE_KEY).Some?
    decreases sources
  {
    hide InOrder, Lookup;
    if sources != [] {
      FoundEitherWay(sources[0]);
      FirstEitherWay(sources[1..]);
    }
  }

  /** What a key spelt << means is what it means in the first mapping that has it. */
  lemma {:induction false} MergedLookup(pairs: seq<Pair>)
    ensures LookupMerged(pairs, MERGE_KEY) ==
            if FirstSpeller(pairs).Some? then Lookup(FirstSpeller(pairs).value, MERGE_KEY) else None
    decreases |pairs|
  {
    hide InOrder, Lookup, LookupPair, SpellerOf;
    if pairs != [] {
      MergedLookup(pairs[1..]);
      if IsMerge(pairs[0]) {
        PairLookup(pairs[0]);
        if SpellerOf(pairs[0]).Some? {
          FoundEitherWay(SpellerOf(pairs[0]).value);
        }
      } else {
        NotMergePair(pairs[0], MERGE_KEY);
      }
    }
  }

  lemma PairLookup(p: Pair)
    requires IsMerge(p)
    ensures LookupPair(p, MERGE_KEY) ==
            if SpellerOf(p).Some? then Lookup(SpellerOf(p).value, MERGE_KEY) else None
  {
    hide InOrder, Lookup;
    if p.value.Sequence? {
      AmongLookup(p.value.items);
    } else {
      FoundEitherWay(p.value);
    }
  }

  lemma {:induction false} AmongLookup(sources: seq<Node>)
    ensures LookupFirst(sources, MERGE_KEY) ==
            if SpellerAmong(sources).Some? then Lookup(SpellerAmong(sources).value, MERGE_KEY) else None
    decreases |sources|
  {
    hide InOrder, Lookup;
    if sources != [] {
      FoundEitherWay(sources[0]);
      AmongLookup(sources[1..]);
    }
  }

  /** A key spelt << keeps its meaning exactly when no mapping merged before the own
      one gives it another value. */
  lemma {:induction false} QuotedMeansIff(n: Node)
    ensures Means(n, MERGE_KEY) <==> KeepsQuoted(n)
    decreases Size(n)
  {
    if n.Mapping? {
      hide Applied, InOrder, Lookup;
      AppliedReads(n, MERGE_KEY);
      QuotedRead(n);
      var i := QuotedAt(n.pairs);
      if i == |n.pairs| && FirstSpeller(n.pairs).Some? {
        var s := FirstSpeller(n.pairs).value;
        FoundEitherWay(s);
        SpellerIsMapping(s);
        AppliedReads(s, MERGE_KEY);
        QuotedMeansIff(s);
      }
    }
  }

  /** What a mapping's key spelt << is read as and what it means. */
  lemma QuotedRead(n: Node)
    requires n.Mapping?
    ensures var i := QuotedAt(n.pairs);
            && InOrder(n) == (if FirstSpeller(n.pairs[..i]).Some? then InOrder(FirstSpeller(n.pairs[..i]).value)
                              else if i < |n.pairs| then Some(n.pairs[i].value) else None)
            && Lookup(n, MERGE_KEY) == (if i < |n.pairs| then Some(n.pairs[i].value)
                                        else if FirstSpeller(n.pairs).Some?
                                        then Lookup(FirstSpeller(n.pairs).value, MERGE_KEY)
                                        else None)
    ensures n.pairs[..|n.pairs|] == n.pairs
  {
    PairsInOrder(n.pairs);
    FindQuoted(n.pairs);
    MergedLookup(n.pairs);
  }

  lemma SpellerIsMapping(s: Node)
    requires InOrder(s).Some?
    ensures s.Mapping?
  {
  }

  // ---------------------------------------------------------------- When keys stay unique

  /** An own key spelt << and a merged one. */
  predicate Clash(pairs: seq<Pair>) {
    QuotedAt(pairs) < |pairs| && FirstSpeller(pairs).Some?
  }

  /** Keys are unique, but for those spelt <<. */
  predicate UniqueBut(pairs: seq<Pair>) {
    forall i, j ::
      0 <= i < j < |pairs| && !IsMerge(pairs[i]) && !IsMerge(pairs[j]) && Key(pairs[i]) == Key(pairs[j]) ==>
      Key(pairs[i]) == MERGE_KEY
  }

  function CountQuoted(pairs: seq<Pair>): nat {
    if pairs == [] then 0 else (if IsQuoted(pairs[0]) then 1 else 0) + CountQuoted(pairs[1..])
  }

  lemma {:induction false} CountConcat(a: seq<Pair>, b: seq<Pair>)
    ensures CountQuoted(a + b) == CountQuoted(a) + CountQuoted(b)
    decreases |a|
  {
    if a == [] {
      assert a + b == b;
    } else {
      assert (a + b)[1..] == a[1..] + b;
      CountConcat(a[1..], b);
    }
  }

  lemma {:induction false} CountIsPositive(pairs: seq<Pair>, i: nat)
    requires i < |pairs| && IsQuoted(pairs[i])
    ensures CountQuoted(pairs) > 0
    decreases |pairs|
  {
    if i > 0 {
      CountIsPositive(pairs[1..], i - 1);
    }
  }

  lemma {:induction false} CountOfUnique(pairs: seq<Pair>)
    requires Unique(pairs)
    ensures CountQuoted(pairs) == if QuotedAt(pairs) < |pairs| then 1 else 0
    decreases |pairs|
  {
    if pairs != [] {
      assert Unique(pairs[1..]);
      CountOfUnique(pairs[1..]);
      assert forall j :: 0 <= j < |pairs[1..]| ==> pairs[1..][j] == pairs[j + 1];
      assert IsQuoted(pairs[0]) ==> forall j :: 1 <= j < |pairs| ==> !IsQuoted(pairs[j]);
    }
  }

  lemma {:induction false} TwoAreCounted(pairs: seq<Pair>, i: nat, j: nat)
    requires i < j < |pairs| && IsQuoted(pairs[i]) && IsQuoted(pairs[j])
    ensures CountQuoted(pairs) > 1
    decreases |pairs|
  {
    if i > 0 {
      TwoAreCounted(pairs[1..], i - 1, j - 1);
    } else {
      CountIsPositive(pairs[1..], j - 1);
    }
  }

  lemma UniqueByCount(pairs: seq<Pair>)
    requires UniqueBut(pairs)
    ensures Unique(pairs) <==> CountQuoted(pairs) <= 1
  {
    if Unique(pairs) {
      CountOfUnique(pairs);
    } else {
      var i, j :| 0 <= i < j < |pairs| && !IsMerge(pairs[i]) && !IsMerge(pairs[j]) && Key(pairs[i]) == Key(pairs[j]);
      TwoAreCounted(pairs, i, j);
    }
  }

  // What is added has each key once, and none taken.

  predicate Fresh(pairs: seq<Pair>, taken: set<string>) {
    forall i :: 0 <= i < |pairs| ==> Key(pairs[i]) !in taken
  }

  lemma {:induction false} TakeNewUnique(pairs: seq<Pair>, taken: set<string>)
    requires NoMerge(pairs)
    ensures Unique(TakeNew(pairs, taken)) && Fresh(TakeNew(pairs, taken), taken)
    decreases |pairs|
  {
    if pairs != [] {
      if Key(pairs[0]) in taken {
        TakeNewUnique(pairs[1..], taken);
      } else {
        TakeNewUnique(pairs[1..], taken + {Key(pairs[0])});
      }
    }
  }

  lemma UniqueConcat(a: seq<Pair>, b: seq<Pair>)
    requires Unique(a) && Unique(b) && Fresh(b, Keys(a))
    ensures Unique(a + b)
  {
    var c := a + b;
    forall i, j | 0 <= i < j < |c| && !IsMerge(c[i]) && !IsMerge(c[j])
      ensures Key(c[i]) != Key(c[j])
    {
      if i < |a| <= j {
        assert a[i] in a && Key(a[i]) in Keys(a);
      }
    }
  }

  lemma {:induction false} AllUniqueAdded(sources: seq<Node>, taken: set<string>)
    ensures Unique(FlatAll(sources, taken)) && Fresh(FlatAll(sources, taken), taken)
    decreases |sources|
  {
    hide Flat, TakeNew;
    if sources != [] {
      var added := TakeNew(Flat(sources[0]), taken);
      TakeNewUnique(Flat(sources[0]), taken);
      AllUniqueAdded(sources[1..], taken + Keys(added));
      UniqueConcat(added, FlatAll(sources[1..], taken + Keys(added)));
    }
  }

  lemma MergedUnique(p: Pair, taken: set<string>)
    ensures Unique(FlatMerged(p, taken)) && Fresh(FlatMerged(p, taken), taken)
  {
    if p.value.Sequence? {
      AllUniqueAdded(p.value.items, taken);
    } else {
      TakeNewUnique(Flat(p.value), taken);
    }
  }

  // How often << stays.

  lemma AddedQuoted(p: Pair, taken: set<string>)
    requires IsMerge(p)
    ensures MERGE_KEY in Keys(FlatMerged(p, taken)) <==> MERGE_KEY !in taken && SpellerOf(p).Some?
    ensures CountQuoted(FlatMerged(p, taken)) == if MERGE_KEY !in taken && SpellerOf(p).Some? then 1 else 0
  {
    hide FlatMerged, InOrderPair, SpellerOf;
    var added := FlatMerged(p, taken);
    MergedReads(p, taken, MERGE_KEY);
    PairInOrder(p);
    FindNone(added, MERGE_KEY);
    FindQuoted(added);
    MergedUnique(p, taken);
    CountOfUnique(added);
  }

  lemma {:induction false} PairsCount(pairs: seq<Pair>, taken: set<string>)
    ensures CountQuoted(FlatPairs(pairs, taken)) ==
            CountQuoted(pairs) + if MERGE_KEY !in taken && FirstSpeller(pairs).Some? then 1 else 0
    decreases |pairs|
  {
    hide FlatMerged, SpellerOf;
    if pairs != [] {
      if IsMerge(pairs[0]) {
        var added := FlatMerged(pairs[0], taken);
        AddedQuoted(pairs[0], taken);
        PairsCount(pairs[1..], taken + Keys(added));
        CountConcat(added, FlatPairs(pairs[1..], taken + Keys(added)));
      } else {
        PairsCount(pairs[1..], taken);
        CountConcat([pairs[0]], FlatPairs(pairs[1..], taken));
        CountOne(pairs[0]);
      }
    }
  }

  lemma CountOne(p: Pair)
    ensures CountQuoted([p]) == if IsQuoted(p) then 1 else 0
  {
  }

  // Other keys stay unique.

  /** A key of the result is spelt <<, is one of the mapping's own, or was not taken. */
  predicate OwnOrFresh(result: seq<Pair>, pairs: seq<Pair>, taken: set<string>) {
    forall i :: 0 <= i < |result| ==>
      Key(result[i]) == MERGE_KEY || Key(result[i]) !in taken || IsOwn(pairs, Key(result[i]))
  }

  predicate IsOwn(pairs: seq<Pair>, k: string) {
    exists j :: 0 <= j < |pairs| && !IsMerge(pairs[j]) && Key(pairs[j]) == k
  }

  lemma OwnOfRest(pairs: seq<Pair>, k: string)
    requires pairs != [] && IsOwn(pairs[1..], k)
    ensures IsOwn(pairs, k)
  {
    var j :| 0 <= j < |pairs[1..]| && !IsMerge(pairs[1..][j]) && Key(pairs[1..][j]) == k;
    assert pairs[1..][j] == pairs[j + 1];
  }

  lemma {:induction false} PairsUniqueBut(pairs: seq<Pair>, taken: set<string>)
    requires OwnTaken(pairs, taken) && Unique(pairs)
    ensures UniqueBut(FlatPairs(pairs, taken)) && OwnOrFresh(FlatPairs(pairs, taken), pairs, taken)
    decreases |pairs|
  {
    hide FlatMerged, UniqueBut, OwnOrFresh;
    if pairs == [] {
      NothingClashes();
    } else if !IsMerge(pairs[0]) {
      var rest := FlatPairs(pairs[1..], taken);
      PairsUniqueBut(pairs[1..], taken);
      OwnFirst(pairs, rest, taken);
    } else {
      var added := FlatMerged(pairs[0], taken);
      var rest := FlatPairs(pairs[1..], taken + Keys(added));
      MergedUnique(pairs[0], taken);
      PairsUniqueBut(pairs[1..], taken + Keys(added));
      AddedFirst(pairs, added, rest, taken);
    }
  }

  lemma NothingClashes()
    ensures UniqueBut([]) && OwnOrFresh([], [], {})
    ensures forall taken :: OwnOrFresh([], [], taken)
  {
  }

  lemma OwnFirst(pairs: seq<Pair>, rest: seq<Pair>, taken: set<string>)
    requires pairs != [] && !IsMerge(pairs[0]) && OwnTaken(pairs, taken) && Unique(pairs)
    requires UniqueBut(rest) && OwnOrFresh(rest, pairs[1..], taken)
    ensures UniqueBut([pairs[0]] + rest) && OwnOrFresh([pairs[0]] + rest, pairs, taken)
  {
    assert IsOwn(pairs, Key(pairs[0]));
    forall i | 0 <= i < |rest| && Key(rest[i]) != MERGE_KEY
      ensures Key(rest[i]) != Key(pairs[0]) && (Key(rest[i]) !in taken || IsOwn(pairs, Key(rest[i])))
    {
      if Key(rest[i]) in taken {
        OwnOfRest(pairs, Key(rest[i]));
        var j :| 0 <= j < |pairs[1..]| && !IsMerge(pairs[1..][j]) && Key(pairs[1..][j]) == Key(rest[i]);
        assert pairs[1..][j] == pairs[j + 1];
      }
    }
  }

  lemma AddedFirst(pairs: seq<Pair>, added: seq<Pair>, rest: seq<Pair>, taken: set<string>)
    requires pairs != [] && IsMerge(pairs[0]) && OwnTaken(pairs, taken)
    requires Unique(added) && Fresh(added, taken)
    requires UniqueBut(rest) && OwnOrFresh(rest, pairs[1..], taken + Keys(added))
    ensures UniqueBut(added + rest) && OwnOrFresh(added + rest, pairs, taken)
  {
    forall i | 0 <= i < |rest| && Key(rest[i]) != MERGE_KEY
      ensures Key(rest[i]) !in Keys(added) && (Key(rest[i]) !in taken || IsOwn(pairs, Key(rest[i])))
    {
      if Key(rest[i]) in taken + Keys(added) {
        OwnOfRest(pairs, Key(rest[i]));
        var j :| 0 <= j < |pairs| && !IsMerge(pairs[j]) && Key(pairs[j]) == Key(rest[i]);
        assert Key(pairs[j]) in taken;
        OwnNotAdded(added, taken, Key(rest[i]));
      }
    }
    assert forall i :: 0 <= i < |added| ==> added[i] in added && Key(added[i]) in Keys(added);
  }

  lemma OwnNotAdded(added: seq<Pair>, taken: set<string>, k: string)
    requires Fresh(added, taken) && k in taken
    ensures k !in Keys(added)
  {
  }

  /** Keys of a mapping stay unique exactly when it does not have a key spelt << both
      of its own and from a mapping it merges. */
  lemma UniqueIff(n: Node)
    requires n.Mapping? && Unique(n.pairs)
    ensures Unique(Flat(n)) <==> !Clash(n.pairs)
  {
    var own := OwnKeys(n.pairs);
    OwnAreTaken(n.pairs);
    PairsUniqueBut(n.pairs, own);
    PairsCount(n.pairs, own);
    CountOfUnique(n.pairs);
    UniqueByCount(Flat(n));
  }

  lemma UniqueApplied(pairs: seq<Pair>)
    ensures Unique(AppliedPairs(pairs)) <==> Unique(pairs)
  {
    hide AppliedPair;
    var done := AppliedPairs(pairs);
    forall i | 0 <= i < |pairs|
      ensures Key(done[i]) == Key(pairs[i]) && IsMerge(done[i]) == IsMerge(pairs[i])
    {
      AppliedKeepsKey(pairs[i]);
    }
    if Unique(done) {
      forall i, j | 0 <= i < j < |pairs| && !IsMerge(pairs[i]) && !IsMerge(pairs[j])
        ensures Key(pairs[i]) != Key(pairs[j])
      {
        assert Key(done[i]) != Key(done[j]);
      }
    }
  }

  // ---------------------------------------------------------------- Whole trees

  /** No mapping that is still there has such a clash: not the tree's, nor any in what
      stays of it. */
  predicate Tidy(n: Node)
    decreases Size(n)
  {
    match n
    case Scalar(_, _) => true
    case Sequence(_, items) => forall i :: 0 <= i < |items| ==> (ItemIsSmaller(items, i); Tidy(items[i]))
    case Mapping(_, pairs) =>
      && !Clash(pairs)
      && forall p :: p in Flat(n) ==> Tidy(p.key) && Tidy(p.value)
  }

  lemma {:induction false} FlatParts(n: Node)
    requires AllUnique(n)
    ensures forall p :: p in Flat(n) ==> Good(p)
    decreases n, 0
  {
    if n.Mapping? {
      PairsParts(n.pairs, OwnKeys(n.pairs));
    }
  }

  predicate Good(p: Pair) {
    AllUnique(p.key) && AllUnique(p.value)
  }

  lemma {:induction false} PairsParts(pairs: seq<Pair>, taken: set<string>)
    requires forall i :: 0 <= i < |pairs| ==> Good(pairs[i])
    ensures forall p :: p in FlatPairs(pairs, taken) ==> Good(p)
    decreases pairs
  {
    hide Good, FlatMerged;
    if pairs != [] {
      if IsMerge(pairs[0]) {
        MergedParts(pairs[0], taken);
        PairsParts(pairs[1..], taken + Keys(FlatMerged(pairs[0], taken)));
      } else {
        PairsParts(pairs[1..], taken);
      }
    }
  }

  lemma {:induction false} MergedParts(p: Pair, taken: set<string>)
    requires Good(p)
    ensures forall q :: q in FlatMerged(p, taken) ==> Good(q)
    decreases p
  {
    if p.value.Sequence? {
      AllParts(p.value.items, taken);
    } else {
      FlatParts(p.value);
      TakeNewIsPart(Flat(p.value), taken);
    }
  }

  lemma {:induction false} AllParts(sources: seq<Node>, taken: set<string>)
    requires forall i :: 0 <= i < |sources| ==> AllUnique(sources[i])
    ensures forall p :: p in FlatAll(sources, taken) ==> Good(p)
    decreases sources
  {
    hide Good, Flat, TakeNew, AllUnique;
    if sources != [] {
      FlatParts(sources[0]);
      TakeNewIsPart(Flat(sources[0]), taken);
      AllParts(sources[1..], taken + Keys(TakeNew(Flat(sources[0]), taken)));
    }
  }

  /** For every tree whose own keys are unique: they stay unique everywhere exactly
      when no mapping that stays has a key spelt << of its own and a merged one. */
  lemma {:induction false} StaysUniqueIff(n: Node)
    requires AllUnique(n)
    ensures AllUnique(Applied(n)) <==> Tidy(n)
    decreases Size(n)
  {
    match n
    case Scalar(_, _) =>
    case Sequence(_, items) =>
      forall i | 0 <= i < |items|
        ensures AllUnique(Applied(items[i])) <==> Tidy(items[i])
      {
        ItemIsSmaller(items, i);
        StaysUniqueIff(items[i]);
      }
      ItemsUniqueIff(n);
    case Mapping(_, _) =>
      FlatParts(n);
      forall p | p in Flat(n)
        ensures (AllUnique(Applied(p.key)) <==> Tidy(p.key)) && (AllUnique(Applied(p.value)) <==> Tidy(p.value))
      {
        assert Good(p);
        StaysUniqueIff(p.key);
        StaysUniqueIff(p.value);
      }
      UniqueIff(n);
      AppliedIsFlat(n);
      UniqueApplied(Flat(n));
      PairsUniqueIff(n);
  }

  lemma ItemsUniqueIff(n: Node)
    requires n.Sequence?
    requires forall i :: 0 <= i < |n.items| ==> (AllUnique(Applied(n.items[i])) <==> Tidy(n.items[i]))
    ensures AllUnique(Applied(n)) <==> Tidy(n)
  {
    var done := Applied(n);
    assert done.Sequence? && |done.items| == |n.items|;
    assert forall i :: 0 <= i < |n.items| ==> done.items[i] == Applied(n.items[i]);
    hide Applied;
    if AllUnique(done) {
      assert forall i :: 0 <= i < |n.items| ==> AllUnique(done.items[i]);
    }
  }

  lemma PairsUniqueIff(n: Node)
    requires n.Mapping? && Applied(n) == Mapping(n.tag, AppliedPairs(Flat(n)))
    requires Unique(AppliedPairs(Flat(n))) <==> !Clash(n.pairs)
    requires forall p :: p in Flat(n) ==>
               (AllUnique(Applied(p.key)) <==> Tidy(p.key)) && (AllUnique(Applied(p.value)) <==> Tidy(p.value))
    ensures AllUnique(Applied(n)) <==> Tidy(n)
  {
    hide Applied, AppliedPair, Flat, Clash, AppliedPairs, AllUnique, Tidy, Unique;
    var flat, done := Flat(n), AppliedPairs(Flat(n));
    MappingIsUnique(n.tag, done);
    MappingIsTidy(n);
    forall i | 0 <= i < |flat|
      ensures flat[i] in flat
      ensures AllUnique(done[i].key) == Tidy(flat[i].key) && AllUnique(done[i].value) == Tidy(flat[i].value)
    {
      DonePair(flat, i);
    }
    if forall i :: 0 <= i < |done| ==> AllUnique(done[i].key) && AllUnique(done[i].value) {
      forall p | p in flat
        ensures Tidy(p.key) && Tidy(p.value)
      {
        var i :| 0 <= i < |flat| && flat[i] == p;
        assert AllUnique(done[i].key) && AllUnique(done[i].value);
      }
    }
  }

  lemma DonePair(flat: seq<Pair>, i: nat)
    requires i < |flat|
    ensures AppliedPairs(flat)[i].key == Applied(flat[i].key) && AppliedPairs(flat)[i].value == Applied(flat[i].value)
  {
    hide Applied;
  }

  lemma MappingIsUnique(tag: string, pairs: seq<Pair>)
    ensures AllUnique(Mapping(tag, pairs)) <==>
            Unique(pairs) && forall i :: 0 <= i < |pairs| ==> AllUnique(pairs[i].key) && AllUnique(pairs[i].value)
  {
    hide Unique;
  }

  lemma MappingIsTidy(n: Node)
    requires n.Mapping?
    ensures Tidy(n) <==> !Clash(n.pairs) && forall p :: p in Flat(n) ==> Tidy(p.key) && Tidy(p.value)
  {
    hide Clash, Flat;
  }

  // ---------------------------------------------------------------- Unquoted trees, and two that are not

  /** No ordinary key is spelt <<. */
  predicate Unquoted(n: Node)
    decreases n
  {
    match n
    case Scalar(_, _) => true
    case Sequence(_, items) => forall i :: 0 <= i < |items| ==> Unquoted(items[i])
    case Mapping(_, pairs) =>
      forall i :: 0 <= i < |pairs| ==>
        !IsQuoted(pairs[i]) && Unquoted(pairs[i].key) && Unquoted(pairs[i].value)
  }

  lemma {:induction false} UnquotedSpellsNothing(n: Node)
    requires Unquoted(n)
    ensures InOrder(n) == None
    decreases n, 0
  {
    if n.Mapping? {
      PairsSpellNothing(n.pairs);
    }
  }

  lemma {:induction false} PairsSpellNothing(pairs: seq<Pair>)
    requires forall i :: 0 <= i < |pairs| ==> !IsQuoted(pairs[i]) && Unquoted(pairs[i].value)
    ensures InOrderPairs(pairs) == None && FirstSpeller(pairs) == None
    decreases pairs
  {
    hide Unquoted;
    if pairs != [] {
      PairSpellsNothing(pairs[0]);
      PairsSpellNothing(pairs[1..]);
    }
  }

  lemma {:induction false} PairSpellsNothing(p: Pair)
    requires Unquoted(p.value)
    ensures InOrderPair(p) == None && SpellerOf(p) == None
    decreases p
  {
    if p.value.Sequence? {
      SourcesSpellNothing(p.value.items);
    } else {
      UnquotedSpellsNothing(p.value);
    }
  }

  lemma {:induction false} SourcesSpellNothing(sources: seq<Node>)
    requires forall i :: 0 <= i < |sources| ==> Unquoted(sources[i])
    ensures InOrderFirst(sources) == None && SpellerAmong(sources) == None
    decreases sources
  {
    hide Unquoted;
    if sources != [] {
      UnquotedSpellsNothing(sources[0]);
      SourcesSpellNothing(sources[1..]);
    }
  }

  /** Without a key spelt << every key keeps its meaning. */
  lemma UnquotedMeans(n: Node, k: string)
    requires Unquoted(n) && (k != MERGE_KEY ==> Untagged(n, k))
    ensures Means(n, k)
  {
    if k != MERGE_KEY {
      AppliedMeans(n, k);
    } else {
      QuotedMeansIff(n);
      if n.Mapping? {
        PairsSpellNothing(n.pairs);
      }
    }
  }

  // What stays of an unquoted mapping is unquoted.

  predicate Plain(p: Pair) {
    !IsQuoted(p) && Unquoted(p.key) && Unquoted(p.value)
  }

  lemma {:induction false} FlatIsPlain(n: Node)
    requires Unquoted(n)
    ensures forall p :: p in Flat(n) ==> Plain(p)
    decreases n, 0
  {
    if n.Mapping? {
      PairsArePlain(n.pairs, OwnKeys(n.pairs));
    }
  }

  lemma {:induction false} PairsArePlain(pairs: seq<Pair>, taken: set<string>)
    requires forall i :: 0 <= i < |pairs| ==> Plain(pairs[i])
    ensures forall p :: p in FlatPairs(pairs, taken) ==> Plain(p)
    decreases pairs
  {
    hide Plain, FlatMerged;
    if pairs != [] {
      if IsMerge(pairs[0]) {
        MergedIsPlain(pairs[0], taken);
        PairsArePlain(pairs[1..], taken + Keys(FlatMerged(pairs[0], taken)));
      } else {
        PairsArePlain(pairs[1..], taken);
      }
    }
  }

  lemma {:induction false} MergedIsPlain(p: Pair, taken: set<string>)
    requires Plain(p)
    ensures forall q :: q in FlatMerged(p, taken) ==> Plain(q)
    decreases p
  {
    if p.value.Sequence? {
      AllArePlain(p.value.items, taken);
    } else {
      FlatIsPlain(p.value);
      TakeNewIsPart(Flat(p.value), taken);
    }
  }

  lemma {:induction false} AllArePlain(sources: seq<Node>, taken: set<string>)
    requires forall i :: 0 <= i < |sources| ==> Unquoted(sources[i])
    ensures forall p :: p in FlatAll(sources, taken) ==> Plain(p)
    decreases sources
  {
    hide Plain, Flat, TakeNew, Unquoted;
    if sources != [] {
      FlatIsPlain(sources[0]);
      TakeNewIsPart(Flat(sources[0]), taken);
      AllArePlain(sources[1..], taken + Keys(TakeNew(Flat(sources[0]), taken)));
    }
  }

  lemma {:induction false} UnquotedIsTidy(n: Node)
    requires Unquoted(n)
    ensures Tidy(n)
    decreases Size(n)
  {
    match n
    case Scalar(_, _) =>
    case Sequence(_, items) =>
      forall i | 0 <= i < |items|
        ensures Tidy(items[i])
      {
        ItemIsSmaller(items, i);
        UnquotedIsTidy(items[i]);
      }
    case Mapping(_, pairs) =>
      FlatIsPlain(n);
      forall p | p in Flat(n)
        ensures Tidy(p.key) && Tidy(p.value)
      {
        assert Plain(p);
        UnquotedIsTidy(p.key);
        UnquotedIsTidy(p.value);
      }
      MappingIsTidy(n);
  }

  /** Where ordinary keys are unique and none is spelt <<, keys stay unique. */
  lemma UnquotedStaysUnique(n: Node)
    requires AllUnique(n) && Unquoted(n)
    ensures AllUnique(Applied(n))
  {
    UnquotedIsTidy(n);
    StaysUniqueIff(n);
  }

  /** One twice: "<<": a and a merge of a mapping with "<<": b gives both. */
  lemma QuotedKeyDoubles(a: Node, b: Node)
    requires a.Scalar? && b.Scalar?
    ensures var quoted := Scalar("!!str", MERGE_KEY);
            var inner := Mapping("!!map", [Pair(quoted, b)]);
            var n := Mapping("!!map", [Pair(quoted, a), Pair(Scalar(MERGE_TAG, MERGE_KEY), inner)]);
            AllUnique(n) && !AllUnique(Applied(n))
  {
    var quoted, merge := Scalar("!!str", MERGE_KEY), Scalar(MERGE_TAG, MERGE_KEY);
    var inner := Mapping("!!map", [Pair(quoted, b)]);
    var n := Mapping("!!map", [Pair(quoted, a), Pair(merge, inner)]);
    QuotedIsNotMerge(quoted);
    assert InOrderPairs(inner.pairs) == Some(b) && InOrder(inner).Some?;
    assert SpellerOf(n.pairs[1]).Some? && n.pairs[1..][0] == n.pairs[1];
    assert FirstSpeller(n.pairs[1..]).Some?;
    assert Clash(n.pairs);
    OneIsGood(quoted, b);
    TwoAreGood(n.pairs[0], n.pairs[1]);
    StaysUniqueIff(n);
  }

  lemma OneIsGood(key: Node, value: Node)
    requires key.Scalar? && value.Scalar? && key.tag != MERGE_TAG
    ensures Good(Pair(key, Mapping("!!map", [Pair(key, value)])))
    ensures AllUnique(Mapping("!!map", [Pair(key, value)]))
  {
    MappingIsUnique("!!map", [Pair(key, value)]);
  }

  lemma TwoAreGood(p: Pair, q: Pair)
    requires Good(p) && Good(q) && IsMerge(p) != IsMerge(q)
    requires Key(p) == Key(q) == MERGE_KEY
    ensures AllUnique(Mapping("!!map", [p, q]))
  {
    hide IsMerge, Key;
    MappingIsUnique("!!map", [p, q]);
  }

  lemma QuotedIsNotMerge(quoted: Node)
    requires quoted == Scalar("!!str", MERGE_KEY)
    ensures quoted.tag != MERGE_TAG
  {
    assert "!!str"[2] != MERGE_TAG[2];
  }

  /** One misread: with the merge first, "<<" reads as b although a is its own. */
  lemma QuotedKeyMisread(a: Node, b: Node)
    requires a.Scalar? && b.Scalar? && a != b
    ensures var quoted := Scalar("!!str", MERGE_KEY);
            var inner := Mapping("!!map", [Pair(quoted, b)]);
            var n := Mapping("!!map", [Pair(Scalar(MERGE_TAG, MERGE_KEY), inner), Pair(quoted, a)]);
            AllUnique(n) && !Means(n, MERGE_KEY)
  {
    var quoted, merge := Scalar("!!str", MERGE_KEY), Scalar(MERGE_TAG, MERGE_KEY);
    var inner := Mapping("!!map", [Pair(quoted, b)]);
    var n := Mapping("!!map", [Pair(merge, inner), Pair(quoted, a)]);
    QuotedIsNotMerge(quoted);
    assert InOrderPairs(inner.pairs) == Some(b) && InOrder(inner) == Some(b);
    assert n.pairs[1..][0] == Pair(quoted, a) && QuotedAt(n.pairs[1..]) == 0 && QuotedAt(n.pairs) == 1;
    assert n.pairs[..1] == [Pair(merge, inner)];
    assert SpellerOf(n.pairs[0]) == Some(inner) && FirstSpeller(n.pairs[..1]) == Some(inner);
    assert Applied(b) == b && Applied(a) == a;
    assert !KeepsQuoted(n);
    OneIsGood(quoted, b);
    TwoAreGood(n.pairs[0], n.pairs[1]);
    QuotedMeansIff(n);
  }

  /** One hidden: a merge key tagged by hand and spelt foo, of a mapping with foo: a. */
  lemma TaggedKeyHides(a: Node)
    requires a.Scalar?
    ensures var key := Scalar("!!str", "foo");
            var n := Mapping("!!map", [Pair(Scalar(MERGE_TAG, "foo"), Mapping("!!map", [Pair(key, a)]))]);
            AllUnique(n) && Lookup(n, "foo") == Some(a) && !Means(n, "foo")
  {
    var key, inner := Scalar("!!str", "foo"), Mapping("!!map", [Pair(Scalar("!!str", "foo"), a)]);
    var tagged := Pair(Scalar(MERGE_TAG, "foo"), inner);
    var n := Mapping("!!map", [tagged]);
    assert key.tag != MERGE_TAG by { assert "!!str"[2] != MERGE_TAG[2]; }
    assert Find(inner.pairs, "foo") == Some(a) && Lookup(inner, "foo") == Some(a);
    assert LookupPair(tagged, "foo") == Some(a) && LookupMerged(n.pairs, "foo") == Some(a);
    assert Find(n.pairs, "foo") == None && IsTagged(n.pairs, "foo");
    assert !IsTagged(inner.pairs, "foo") && Untagged(a, "foo") && Untagged(inner, "foo");
    OneIsGood(key, a);
    MappingIsUnique("!!map", [tagged]);
    assert "foo" != MERGE_KEY;
    TaggedMeansIff(n, "foo");
  }
}
