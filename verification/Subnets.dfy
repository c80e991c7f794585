/** Picking a free subnet for a network (internal/compose/subnet.go) and the
    retry loop that creates it (createNetwork in internal/cli/compose_up.go). */
module Subnets {
  import opened Wrappers

  /** A parsed IP prefix. Only IPv4 ones can meet the pool; the address is a
      32-bit number. */
  datatype Prefix = V4(addr: nat, bits: nat) | V6
  {
    predicate Valid() {
      V4? ==> addr < 0x1_0000_0000 && bits <= 32
    }
  }

  /** SubnetPool, 10.213.0.0/16, and the /24s it is cut into. */
  const POOL_BASE := 10 * 0x100_0000 + 213 * 0x1_0000
  const SUBNET_BITS := 24
  const COUNT := 256
  const STEP := 256

  function Pow2(n: nat): (p: nat)
    ensures p >= 1
  {
    if n == 0 then 1 else 2 * Pow2(n - 1)
  }

  /** How many addresses a prefix of so many bits has. */
  function Size(bits: nat): (n: nat)
    requires bits <= 32
    ensures n >= 1
  {
    Pow2(32 - bits)
  }

  lemma MulNat(a: nat, b: nat)
    ensures a * b >= 0
  {
  }

  lemma DivNat(x: nat, d: nat)
    requires d >= 1
    ensures x / d >= 0
  {
  }

  /** The greatest multiple of d that is at most x. */
  function FloorTo(x: nat, d: nat): nat
    requires d >= 1
  {
    DivNat(x, d);
    MulNat(x / d, d);
    x / d * d
  }

  /** Masked: the address with its host bits cleared. */
  function Masked(p: Prefix): Prefix
    requires p.Valid()
  {
    match p
    case V4(addr, bits) => V4(FloorTo(addr, Size(bits)), bits)
    case V6 => V6
  }

  /** Overlaps, as netip computes it: same family, and the same network at the
      shorter of the two lengths. */
  predicate Overlaps(p: Prefix, q: Prefix)
    requires p.Valid() && q.Valid()
  {
    && p.V4? && q.V4?
    && var bits := if p.bits < q.bits then p.bits else q.bits;
       p.addr / Size(bits) == q.addr / Size(bits)
  }

  /** An address belongs to a prefix (section 3.1 of RFC 4632). */
  predicate Contains(p: Prefix, address: nat)
    requires p.Valid()
  {
    p.V4? && address / Size(p.bits) == p.addr / Size(p.bits)
  }

  function Candidate(i: nat): (p: Prefix)
    requires i < COUNT
    ensures p.Valid() && p.V4?
  {
    V4(POOL_BASE + i * STEP, SUBNET_BITS)
  }

  /** No address is in both. */
  ghost predicate Disjoint(p: Prefix, q: Prefix)
    requires p.Valid() && q.Valid()
  {
    forall address: nat :: !(Contains(p, address) && Contains(q, address))
  }

  predicate AllValid(prefixes: seq<Prefix>) {
    forall k :: 0 <= k < |prefixes| ==> prefixes[k].Valid()
  }

  ghost predicate Free(taken: seq<Prefix>, i: nat)
    requires AllValid(taken) && i < COUNT
  {
    forall k :: 0 <= k < |taken| ==> Disjoint(taken[k], Candidate(i))
  }

  // ---------------------------------------------------------------- Arithmetic

  lemma {:induction false} Pow2Add(a: nat, b: nat)
    ensures Pow2(a + b) == Pow2(a) * Pow2(b)
  {
    if a > 0 {
      Pow2Add(a - 1, b);
      assert Pow2(a + b) == 2 * Pow2(a - 1 + b);
    }
  }

  lemma MulAtLeast(d: int, e: int)
    requires d >= 1 && e >= 1
    ensures d * e >= d
  {
  }

  lemma Distribute(a: int, x: int, y: int)
    ensures a * (x + y) == a * x + a * y
  {
  }

  lemma QuotientIs(x: nat, d: nat, q: nat, r: nat)
    requires d >= 1 && r < d && x == d * q + r
    ensures x / d == q
  {
    var e := x / d - q;
    Distribute(d, q, e);
    assert x == d * (x / d) + x % d;
    if e >= 1 {
      MulAtLeast(d, e);
    } else if -e >= 1 {
      MulAtLeast(d, -e);
      Distribute(d, e, -e);
    }
  }

  lemma Associate(a: int, b: int, c: int)
    ensures a * (b * c) == (a * b) * c
  {
  }

  lemma DivDiv(x: nat, a: nat, b: nat)
    requires a >= 1 && b >= 1
    ensures a * b >= 1 && x / (a * b) == x / a / b
  {
    var y, s := Divided(x, a);
    var q, r := Divided(y, b);
    MulAtLeast(a, b);
    TwoRemainders(x, a, b, y, q, r, s);
    RemainderBound(a, b, r, s);
    QuotientIs(x, a * b, q, a * r + s);
  }

  lemma Divided(x: nat, d: nat) returns (q: nat, r: nat)
    requires d >= 1
    ensures x == d * q + r && r < d && q == x / d
  {
    q, r := x / d, x % d;
  }

  lemma TwoRemainders(x: nat, a: nat, b: nat, y: nat, q: nat, r: nat, s: nat)
    requires x == a * y + s && y == b * q + r
    ensures x == (a * b) * q + (a * r + s)
  {
    Distribute(a, b * q, r);
    Associate(a, b, q);
  }

  lemma RemainderBound(a: nat, b: nat, r: nat, s: nat)
    requires r < b && s < a
    ensures 0 <= a * r + s < a * b
  {
    MulAtLeast(a, b - r);
    Distribute(a, r, b - r);
  }

  lemma ShorterPrefix(x: nat, short: nat, long: nat)
    requires short <= long <= 32
    ensures x / Size(short) == x / Size(long) / Pow2(long - short)
  {
    Pow2Add(32 - long, long - short);
    DivDiv(x, Size(long), Pow2(long - short));
  }

  // ---------------------------------------------------------------- Prefixes as intervals

  lemma OverlapIsShared(p: Prefix, q: Prefix)
    requires p.Valid() && q.Valid()
    ensures Overlaps(p, q) <==> !Disjoint(p, q)
  {
    if Overlaps(p, q) {
      var address := if p.bits <= q.bits then q.addr else p.addr;
      assert Contains(p, address) && Contains(q, address);
    }
    if address: nat :| Contains(p, address) && Contains(q, address) {
      if p.bits <= q.bits {
        ShorterPrefix(address, p.bits, q.bits);
        ShorterPrefix(q.addr, p.bits, q.bits);
      } else {
        ShorterPrefix(address, q.bits, p.bits);
        ShorterPrefix(p.addr, q.bits, p.bits);
      }
    }
  }

  lemma QuotientInterval(x: nat, d: nat, q: nat)
    requires d >= 1
    ensures x / d == q <==> q * d <= x < q * d + d
  {
    MulNat(q, d);
    assert x == d * (x / d) + x % d;
    if q * d <= x < q * d + d {
      QuotientIs(x, d, q, x - q * d);
    }
  }

  /** A prefix is an interval of addresses, starting at its masked address. */
  lemma ContainsIsInterval(p: Prefix, address: nat, start: nat)
    requires p.Valid() && p.V4? && start == Masked(p).addr
    ensures Contains(p, address) <==> start <= address < start + Size(p.bits)
  {
    hide Size;
    var d := Size(p.bits);
    var q := p.addr / d;
    QuotientInterval(address, d, q);
  }

  lemma MaskQuotient(addr: nat, d: nat)
    requires d >= 1
    ensures FloorTo(addr, d) <= addr && FloorTo(addr, d) / d == addr / d
  {
    MulNat(addr / d, d);
    assert addr == d * (addr / d) + addr % d;
    QuotientIs(addr / d * d, d, addr / d, 0);
  }

  /** Masking does not change which addresses a prefix has. */
  lemma MaskedContains(p: Prefix, address: nat)
    requires p.Valid()
    ensures Masked(p).Valid() && Contains(Masked(p), address) == Contains(p, address)
  {
    if p.V4? {
      hide FloorTo, Size;
      MaskQuotient(p.addr, Size(p.bits));
    }
  }

  lemma MaskedDisjoint(p: Prefix, q: Prefix)
    requires p.Valid() && q.Valid()
    ensures Masked(p).Valid() && (Disjoint(Masked(p), q) <==> Disjoint(p, q))
  {
    MaskedContains(p, 0);
    forall address: nat
      ensures Contains(Masked(p), address) == Contains(p, address)
    {
      MaskedContains(p, address);
    }
  }

  // ---------------------------------------------------------------- FreeSubnet

  /** The prefixes among the texts of taken; what does not parse is ignored. */
  function Parsed(taken: seq<Option<Prefix>>): seq<Prefix> {
    if taken == [] then []
    else Parsed(taken[..|taken| - 1]) +
         match taken[|taken| - 1] { case Some(p) => [p] case None => [] }
  }

  predicate TakenValid(taken: seq<Option<Prefix>>) {
    forall k :: 0 <= k < |taken| && taken[k].Some? ==> taken[k].value.Valid()
  }

  lemma {:induction false} ParsedValid(taken: seq<Option<Prefix>>)
    requires TakenValid(taken)
    ensures AllValid(Parsed(taken))
    decreases |taken|
  {
    if taken != [] {
      ParsedValid(taken[..|taken| - 1]);
    }
  }

  function AllMasked(prefixes: seq<Prefix>): (masked: seq<Prefix>)
    requires AllValid(prefixes)
    ensures |masked| == |prefixes| && AllValid(masked)
    ensures forall k :: 0 <= k < |masked| ==> masked[k] == Masked(prefixes[k])
  {
    if prefixes == [] then []
    else
      var last := prefixes[|prefixes| - 1];
      MaskedContains(last, 0);
      AllMasked(prefixes[..|prefixes| - 1]) + [Masked(last)]
  }

  lemma ParsedStep(taken: seq<Option<Prefix>>, k: nat)
    requires k < |taken| && TakenValid(taken)
    requires AllValid(Parsed(taken[..k])) && AllValid(Parsed(taken[..k + 1]))
    ensures AllMasked(Parsed(taken[..k + 1])) ==
            AllMasked(Parsed(taken[..k])) + (if taken[k].Some? then [Masked(taken[k].value)] else [])
  {
    hide Masked;
    assert taken[..k + 1][..k] == taken[..k];
    if taken[k].Some? {
      assert Parsed(taken[..k + 1]) == Parsed(taken[..k]) + [taken[k].value];
    } else {
      assert Parsed(taken[..k + 1]) == Parsed(taken[..k]);
    }
  }

  /** The inner loop: whether the candidate overlaps none of those used. */
  method IsFree(used: seq<Prefix>, candidate: Prefix) returns (free: bool)
    requires AllValid(used) && candidate.Valid()
    ensures free <==> forall k :: 0 <= k < |used| ==> !Overlaps(used[k], candidate)
  {
    for k := 0 to |used|
      invariant forall j :: 0 <= j < k ==> !Overlaps(used[j], candidate)
    {
      if Overlaps(used[k], candidate) {
        return false;
      }
    }
    return true;
  }

  lemma FreeMeansNoOverlap(prefixes: seq<Prefix>, i: nat)
    requires AllValid(prefixes) && i < COUNT
    ensures Free(prefixes, i) <==> forall k :: 0 <= k < |prefixes| ==> !Overlaps(AllMasked(prefixes)[k], Candidate(i))
  {
    hide Disjoint, Overlaps, Masked, Candidate, AllMasked;
    var masked, c := AllMasked(prefixes), Candidate(i);
    forall k | 0 <= k < |prefixes|
      ensures Disjoint(prefixes[k], c) <==> !Overlaps(masked[k], c)
    {
      MaskedDisjoint(prefixes[k], c);
      OverlapIsShared(Masked(prefixes[k]), c);
    }
    if Free(prefixes, i) {
      forall k | 0 <= k < |prefixes|
        ensures !Overlaps(masked[k], c)
      {
        assert Disjoint(prefixes[k], c);
      }
    } else {
      var k :| 0 <= k < |prefixes| && !Disjoint(prefixes[k], c);
      assert Overlaps(AllMasked(prefixes)[k], Candidate(i));
    }
  }

  /** The ith /24 of the pool shares no address with any prefix taken, and those
      before it all do. */
  ghost predicate IsLowestFree(taken: seq<Option<Prefix>>, i: nat) {
    && AllValid(Parsed(taken)) && i < COUNT && Free(Parsed(taken), i)
    && forall j :: 0 <= j < i ==> !Free(Parsed(taken), j)
  }

  ghost predicate NoneIsFree(taken: seq<Option<Prefix>>) {
    AllValid(Parsed(taken)) && forall j :: 0 <= j < COUNT ==> !Free(Parsed(taken), j)
  }

  // ---------------------------------------------------------------- The pool

  /** The address a.b.c.d. */
  function Dotted(a: nat, b: nat, c: nat, d: nat): nat {
    ((a * 256 + b) * 256 + c) * 256 + d
  }

  lemma {:induction false} Sizes()
    ensures Size(24) == 256 && Size(16) == 65536
  {
    assert Pow2(4) == 16;
    Pow2Add(4, 4);
    Pow2Add(8, 8);
  }

  /** The candidates are 10.213.0.0/24, 10.213.1.0/24 and so on. */
  lemma CandidateIs(i: nat, address: nat)
    requires i < COUNT
    ensures Candidate(i) == V4(Dotted(10, 213, i, 0), 24)
    ensures Contains(Candidate(i), address) <==> Dotted(10, 213, i, 0) <= address <= Dotted(10, 213, i, 255)
  {
    hide Size;
    Sizes();
  }

  /** They share the addresses of 10.213.0.0/16 out among them, each to one. */
  lemma CandidatesTile(address: nat)
    ensures Contains(V4(Dotted(10, 213, 0, 0), 16), address) <==>
            exists i: nat :: i < COUNT && Contains(Candidate(i), address)
    ensures forall i: nat, j: nat :: i < COUNT && j < COUNT ==>
              (Contains(Candidate(i), address) && Contains(Candidate(j), address) ==> i == j)
  {
    hide Size, Contains, Candidate;
    PoolHas(address);
    forall i: nat | i < COUNT
      ensures Contains(Candidate(i), address) <==> Dotted(10, 213, i, 0) <= address <= Dotted(10, 213, i, 255)
    {
      CandidateIs(i, address);
    }
    if Dotted(10, 213, 0, 0) <= address <= Dotted(10, 213, 255, 255) {
      var i := (address - Dotted(10, 213, 0, 0)) / 256;
      assert i < COUNT && Contains(Candidate(i), address);
    }
  }

  lemma PoolHas(address: nat)
    ensures Contains(V4(Dotted(10, 213, 0, 0), 16), address) <==>
            Dotted(10, 213, 0, 0) <= address <= Dotted(10, 213, 255, 255)
  {
    hide Size;
    Sizes();
  }

  /** A /24 whose address is its first, within 10.213.0.0/16. */
  predicate InPool(p: Prefix) {
    p.V4? && p.bits == 24 && p.addr % 256 == 0 && Dotted(10, 213, 0, 0) <= p.addr <= Dotted(10, 213, 255, 0)
  }

  lemma InPoolIsCandidate(p: Prefix)
    ensures InPool(p) <==> exists i: nat :: i < COUNT && p == Candidate(i)
  {
    if InPool(p) {
      var i := (p.addr - Dotted(10, 213, 0, 0)) / 256;
      assert i < COUNT && p == Candidate(i);
    }
  }

  /** It shares no address with any of those taken that is a prefix. */
  ghost predicate ClearOf(taken: seq<Option<Prefix>>, p: Prefix)
    requires TakenValid(taken) && p.Valid()
  {
    forall k :: 0 <= k < |taken| && taken[k].Some? ==> Disjoint(taken[k].value, p)
  }

  lemma {:induction false} ParsedHas(taken: seq<Option<Prefix>>, k: nat) returns (i: nat)
    requires k < |taken| && taken[k].Some?
    ensures i < |Parsed(taken)| && Parsed(taken)[i] == taken[k].value
    decreases |taken|
  {
    if k == |taken| - 1 {
      i := |Parsed(taken)| - 1;
    } else {
      i := ParsedHas(taken[..|taken| - 1], k);
    }
  }

  lemma {:induction false} ParsedFrom(taken: seq<Option<Prefix>>, i: nat) returns (k: nat)
    requires i < |Parsed(taken)|
    ensures k < |taken| && taken[k] == Some(Parsed(taken)[i])
    decreases |taken|
  {
    var init := taken[..|taken| - 1];
    if i < |Parsed(init)| {
      k := ParsedFrom(init, i);
    } else {
      k := |taken| - 1;
    }
  }

  lemma FreeIsClear(taken: seq<Option<Prefix>>, i: nat)
    requires TakenValid(taken) && AllValid(Parsed(taken)) && i < COUNT
    ensures Free(Parsed(taken), i) <==> ClearOf(taken, Candidate(i))
  {
    hide Disjoint, Candidate, Parsed;
    if Free(Parsed(taken), i) {
      forall k | 0 <= k < |taken| && taken[k].Some?
        ensures Disjoint(taken[k].value, Candidate(i))
      {
        var j := ParsedHas(taken, k);
        assert Disjoint(Parsed(taken)[j], Candidate(i));
      }
    } else {
      var j :| 0 <= j < |Parsed(taken)| && !Disjoint(Parsed(taken)[j], Candidate(i));
      var k := ParsedFrom(taken, j);
      assert !Disjoint(taken[k].value, Candidate(i));
    }
  }

  /** Of the /24s of the pool, the one of least address that is clear of those taken. */
  ghost predicate IsLeastClear(taken: seq<Option<Prefix>>, least: Prefix)
    requires TakenValid(taken)
  {
    && least.Valid() && InPool(least) && ClearOf(taken, least)
    && forall p: Prefix :: p.Valid() && InPool(p) && ClearOf(taken, p) ==> least.addr <= p.addr
  }

  /** The lowest free candidate is the /24 of the least address there is in the pool
      that is clear of those taken. */
  lemma LowestIsLeast(taken: seq<Option<Prefix>>, i: nat)
    requires TakenValid(taken) && IsLowestFree(taken, i)
    ensures IsLeastClear(taken, Candidate(i))
  {
    hide Free, ClearOf, Dotted, Parsed;
    InPoolIsCandidate(Candidate(i));
    FreeIsClear(taken, i);
    forall p: Prefix | p.Valid() && InPool(p) && ClearOf(taken, p)
      ensures Candidate(i).addr <= p.addr
    {
      InPoolIsCandidate(p);
      var j: nat :| j < COUNT && p == Candidate(j);
      FreeIsClear(taken, j);
      assert !(j < i);
    }
  }

  lemma NoneIsClear(taken: seq<Option<Prefix>>)
    requires TakenValid(taken) && NoneIsFree(taken)
    ensures forall p: Prefix :: p.Valid() && InPool(p) ==> !ClearOf(taken, p)
  {
    hide Free, ClearOf, InPool, Parsed;
    forall p: Prefix | p.Valid() && InPool(p)
      ensures !ClearOf(taken, p)
    {
      InPoolIsCandidate(p);
      var j: nat :| j < COUNT && p == Candidate(j);
      FreeIsClear(taken, j);
    }
  }

  /** The lowest /24 of the pool that shares no address with any prefix taken, or
      an error exactly if every one of them does. */
  method FreeSubnet(taken: seq<Option<Prefix>>) returns (r: Result<nat, ()>)
    requires TakenValid(taken)
    ensures r.Ok? ==> IsLowestFree(taken, r.value) && IsLeastClear(taken, Candidate(r.value))
    ensures r.Err? ==> NoneIsFree(taken) && forall p: Prefix :: p.Valid() && InPool(p) ==> !ClearOf(taken, p)
  {
    hide IsLeastClear, ClearOf, InPool, Free, Overlaps, Masked, Candidate, FloorTo, Size;
    ParsedValid(taken);
    ghost var prefixes := Parsed(taken);
    var used := [];
    for k := 0 to |taken|
      invariant AllValid(Parsed(taken[..k])) && used == AllMasked(Parsed(taken[..k]))
    {
      ParsedValid(taken[..k + 1]);
      ParsedStep(taken, k);
      if taken[k].Some? {
        used := used + [Masked(taken[k].value)];
      }
    }
    assert taken[..|taken|] == taken;

    for i := 0 to COUNT
      invariant forall j :: 0 <= j < i ==> !Free(prefixes, j)
    {
      var free := IsFree(used, Candidate(i));
      FreeMeansNoOverlap(prefixes, i);
      if free {
        LowestIsLeast(taken, i);
        return Ok(i);
      }
    }
    NoneIsClear(taken);
    return Err(());
  }

  // ---------------------------------------------------------------- createNetwork

  /** maxSubnetTries. */
  const TRIES := 16

  datatype Network = Network(name: string, subnet: Option<Prefix>)

  /** What the daemon answers: to listing the networks, and to creating one. */
  datatype Listing = Listed(networks: seq<Network>) | ListFailed
  datatype Answer = Created | AlreadyExists | Refused

  datatype Outcome =
    | Made(subnet: nat)
    | GaveUp             // sixteen subnets were turned away
    | NameTaken
    | NoneFree
    | DaemonFailed

  /** The subnets taken: those refused so far and those the networks have. */
  function Taken(refused: seq<nat>, networks: seq<Network>): (taken: seq<Option<Prefix>>)
    requires forall k :: 0 <= k < |refused| ==> refused[k] < COUNT
    ensures |taken| == |refused| + |networks|
    ensures forall k :: 0 <= k < |refused| ==> taken[k] == Some(Candidate(refused[k]))
    ensures forall k :: 0 <= k < |networks| ==> taken[|refused| + k] == networks[k].subnet
  {
    seq(|refused|, k requires 0 <= k < |refused| => Some(Candidate(refused[k]))) +
    seq(|networks|, k requires 0 <= k < |networks| => networks[k].subnet)
  }

  predicate NetworksValid(networks: seq<Network>) {
    forall k :: 0 <= k < |networks| && networks[k].subnet.Some? ==> networks[k].subnet.value.Valid()
  }

  predicate ListingsValid(listings: seq<Listing>) {
    forall t :: 0 <= t < |listings| && listings[t].Listed? ==> NetworksValid(listings[t].networks)
  }

  predicate AllDifferent(tried: seq<nat>) {
    forall i, j :: 0 <= i < j < |tried| ==> tried[i] != tried[j]
  }

  /** A subnet free of those taken is none of those refused. */
  lemma FreeIsNew(refused: seq<nat>, networks: seq<Network>, subnet: nat, k: nat)
    requires subnet < COUNT && k < |refused| && forall j :: 0 <= j < |refused| ==> refused[j] < COUNT
    requires AllValid(Parsed(Taken(refused, networks))) && Free(Parsed(Taken(refused, networks)), subnet)
    ensures refused[k] != subnet
  {
    var i := ParsedHas(Taken(refused, networks), k);
    if refused[k] == subnet {
      assert Disjoint(Candidate(subnet), Candidate(subnet));
      assert Contains(Candidate(subnet), Candidate(subnet).addr);
    }
  }

  predicate HasName(networks: seq<Network>, name: string) {
    exists k :: 0 <= k < |networks| && networks[k].name == name
  }

  /** The tth subnet tried: the name was not listed, and it is the lowest free of
      those turned away before it and those listed. */
  ghost predicate IsTry(name: string, listing: Listing, refused: seq<nat>, subnet: nat) {
    && listing.Listed? && !HasName(listing.networks, name)
    && (forall k :: 0 <= k < |refused| ==> refused[k] < COUNT)
    && IsLowestFree(Taken(refused, listing.networks), subnet)
  }

  /** The subnets tried, one after another, each but the last turned away. */
  ghost predicate AreTries(name: string, listings: seq<Listing>, answers: seq<Answer>, tried: seq<nat>) {
    && |tried| <= |listings| == |answers|
    && (forall t :: 0 <= t < |tried| ==> IsTry(name, listings[t], tried[..t], tried[t]))
    && (forall t :: 0 <= t < |tried| - 1 ==> answers[t].AlreadyExists?)
  }

  /** Why it ended there. */
  ghost predicate Ends(name: string, listings: seq<Listing>, answers: seq<Answer>, outcome: Outcome, tried: seq<nat>)
    requires AreTries(name, listings, answers, tried)
  {
    var n := |tried|;
    var turnedAway := n == 0 || answers[n - 1].AlreadyExists?;
    match outcome
    case Made(subnet) => n > 0 && answers[n - 1].Created? && subnet == tried[n - 1]
    case GaveUp => n == |listings| && turnedAway
    case NameTaken => n < |listings| && turnedAway && listings[n].Listed? && HasName(listings[n].networks, name)
    case NoneFree =>
      && n < |listings| && turnedAway && listings[n].Listed? && !HasName(listings[n].networks, name)
      && (forall k :: 0 <= k < n ==> tried[k] < COUNT) && NoneIsFree(Taken(tried, listings[n].networks))
    case DaemonFailed => (n < |listings| && turnedAway && listings[n].ListFailed?) || (n > 0 && answers[n - 1].Refused?)
  }

  /** createNetwork for a network the file gives no subnet: the daemon's tth
      answers are listings[t] and answers[t]. */
  method CreateNetwork(name: string, listings: seq<Listing>, answers: seq<Answer>)
      returns (outcome: Outcome, tried: seq<nat>)
    requires |listings| == |answers| == TRIES && ListingsValid(listings)
    ensures AreTries(name, listings, answers, tried)
    ensures Ends(name, listings, answers, outcome, tried)
  {
    hide IsLowestFree, NoneIsFree, Taken, HasName, AreTries, IsTry;
    NoTries(name, listings, answers);
    tried := [];
    for t := 0 to TRIES
      invariant |tried| == t && (forall k :: 0 <= k < t ==> tried[k] < COUNT && answers[k].AlreadyExists?)
      invariant AreTries(name, listings, answers, tried)
    {
      if listings[t].ListFailed? {
        return DaemonFailed, tried;
      }
      var named := IsListed(listings[t].networks, name);
      if named {
        return NameTaken, tried;
      }
      TakenIsValid(tried, listings[t].networks);
      var r := FreeSubnet(Taken(tried, listings[t].networks));
      if r.Err? {
        return NoneFree, tried;
      }
      LowestIsInPool(Taken(tried, listings[t].networks), r.value);
      OneMoreTry(name, listings, answers, tried, r.value);
      tried := tried + [r.value];
      match answers[t] {
        case Created => return Made(r.value), tried;
        case Refused => return DaemonFailed, tried;
        case AlreadyExists =>
      }
    }
    return GaveUp, tried;
  }

  lemma NoTries(name: string, listings: seq<Listing>, answers: seq<Answer>)
    requires |listings| == |answers|
    ensures AreTries(name, listings, answers, [])
  {
  }

  lemma OneMoreTry(name: string, listings: seq<Listing>, answers: seq<Answer>, tried: seq<nat>, subnet: nat)
    requires AreTries(name, listings, answers, tried) && |tried| < |listings|
    requires forall k :: 0 <= k < |tried| ==> tried[k] < COUNT && answers[k].AlreadyExists?
    requires listings[|tried|].Listed? && !HasName(listings[|tried|].networks, name)
    requires IsLowestFree(Taken(tried, listings[|tried|].networks), subnet)
    ensures AreTries(name, listings, answers, tried + [subnet])
  {
    hide IsLowestFree, Taken, HasName;
    var more := tried + [subnet];
    forall t | 0 <= t < |more|
      ensures IsTry(name, listings[t], more[..t], more[t])
    {
      if t < |tried| {
        assert more[..t] == tried[..t];
      } else {
        assert more[..t] == tried;
      }
    }
  }

  /** The scan for a network of the name. */
  method IsListed(networks: seq<Network>, name: string) returns (named: bool)
    ensures named == HasName(networks, name)
  {
    for k := 0 to |networks|
      invariant forall j :: 0 <= j < k ==> networks[j].name != name
    {
      if networks[k].name == name {
        return true;
      }
    }
    return false;
  }

  lemma LowestIsInPool(taken: seq<Option<Prefix>>, i: nat)
    requires IsLowestFree(taken, i)
    ensures i < COUNT
  {
  }

  lemma TakenIsValid(refused: seq<nat>, networks: seq<Network>)
    requires NetworksValid(networks) && forall k :: 0 <= k < |refused| ==> refused[k] < COUNT
    ensures TakenValid(Taken(refused, networks))
  {
    var taken := Taken(refused, networks);
    forall k | 0 <= k < |taken| && taken[k].Some?
      ensures taken[k].value.Valid()
    {
      if k >= |refused| {
        assert taken[k] == networks[k - |refused|].subnet;
      }
    }
  }

  /** The subnets one call tries are all different, and each shared no address with
      any network listed when it was tried. */
  lemma TriesAreNew(name: string, listings: seq<Listing>, answers: seq<Answer>, tried: seq<nat>)
    requires AreTries(name, listings, answers, tried)
    ensures AllDifferent(tried)
    ensures forall t :: 0 <= t < |tried| ==>
              tried[t] < COUNT && listings[t].Listed? && FreeOf(listings[t].networks, tried[t])
  {
    hide FreeOf, Free, Parsed, Taken;
    for t := 0 to |tried|
      invariant AllDifferent(tried[..t])
      invariant forall k :: 0 <= k < t ==>
                  tried[k] < COUNT && listings[k].Listed? && FreeOf(listings[k].networks, tried[k])
    {
      assert IsTry(name, listings[t], tried[..t], tried[t]);
      NextTry(tried[..t], listings[t].networks, tried[t]);
      assert tried[..t + 1] == tried[..t] + [tried[t]];
    }
    assert tried[..|tried|] == tried;
  }

  lemma LowestIsUnique(taken: seq<Option<Prefix>>, i: nat, j: nat)
    requires IsLowestFree(taken, i) && IsLowestFree(taken, j)
    ensures i == j
  {
    hide Free;
  }

  /** Two ways through the same answers agree as far as both go. */
  lemma {:induction false} SameTries(name: string, listings: seq<Listing>, answers: seq<Answer>,
                                     t1: seq<nat>, t2: seq<nat>, n: nat)
    requires AreTries(name, listings, answers, t1) && AreTries(name, listings, answers, t2)
    requires n <= |t1| && n <= |t2|
    ensures t1[..n] == t2[..n]
    decreases n
  {
    hide Taken, IsLowestFree, HasName;
    if n > 0 {
      SameTries(name, listings, answers, t1, t2, n - 1);
      assert IsTry(name, listings[n - 1], t1[..n - 1], t1[n - 1]);
      assert IsTry(name, listings[n - 1], t2[..n - 1], t2[n - 1]);
      LowestIsUnique(Taken(t1[..n - 1], listings[n - 1].networks), t1[n - 1], t2[n - 1]);
    }
  }

  /** The contract leaves no choice: the daemon's answers decide what is tried and
      how it ends. */
  lemma AnswersDecide(name: string, listings: seq<Listing>, answers: seq<Answer>,
                      o1: Outcome, t1: seq<nat>, o2: Outcome, t2: seq<nat>)
    requires AreTries(name, listings, answers, t1) && Ends(name, listings, answers, o1, t1)
    requires AreTries(name, listings, answers, t2) && Ends(name, listings, answers, o2, t2)
    ensures o1 == o2 && t1 == t2
  {
    hide IsLowestFree, NoneIsFree, Taken, HasName, AreTries;
    EndsNoLonger(name, listings, answers, o1, t1, t2);
    EndsNoLonger(name, listings, answers, o2, t2, t1);
    SameTries(name, listings, answers, t1, t2, |t1|);
    assert t1[..|t1|] == t1 && t2[..|t1|] == t2;
    SameEnd(name, listings, answers, o1, o2, t1);
  }

  lemma SameEnd(name: string, listings: seq<Listing>, answers: seq<Answer>, o1: Outcome, o2: Outcome, tried: seq<nat>)
    requires AreTries(name, listings, answers, tried)
    requires Ends(name, listings, answers, o1, tried) && Ends(name, listings, answers, o2, tried)
    ensures o1 == o2
  {
    hide AreTries, NoneIsFree, Taken, HasName;
  }

  /** What was so where something more was tried. */
  lemma GoesOn(name: string, listings: seq<Listing>, answers: seq<Answer>, tried: seq<nat>, n: nat)
    requires AreTries(name, listings, answers, tried) && n < |tried|
    ensures n < |listings| && listings[n].Listed? && !HasName(listings[n].networks, name)
    ensures n > 0 ==> answers[n - 1].AlreadyExists?
    ensures forall k :: 0 <= k < n ==> tried[..n][k] < COUNT
    ensures !NoneIsFree(Taken(tried[..n], listings[n].networks))
  {
    hide Free, HasName, Taken;
    assert IsTry(name, listings[n], tried[..n], tried[n]);
  }

  lemma EndsNoLonger(name: string, listings: seq<Listing>, answers: seq<Answer>,
                     outcome: Outcome, tried: seq<nat>, more: seq<nat>)
    requires AreTries(name, listings, answers, tried) && Ends(name, listings, answers, outcome, tried)
    requires AreTries(name, listings, answers, more)
    ensures |more| <= |tried|
  {
    hide AreTries, NoneIsFree, Taken, HasName;
    if |tried| < |more| {
      SameTries(name, listings, answers, tried, more, |tried|);
      assert tried[..|tried|] == tried;
      GoesOn(name, listings, answers, more, |tried|);
      assert false;
    }
  }

  /** No network listed has an address of the subnet. */
  ghost predicate FreeOf(networks: seq<Network>, subnet: nat)
    requires subnet < COUNT
  {
    forall k :: 0 <= k < |networks| && networks[k].subnet.Some? && networks[k].subnet.value.Valid() ==>
      Disjoint(networks[k].subnet.value, Candidate(subnet))
  }

  lemma NextTry(refused: seq<nat>, networks: seq<Network>, subnet: nat)
    requires subnet < COUNT && AllDifferent(refused) && forall j :: 0 <= j < |refused| ==> refused[j] < COUNT
    requires AllValid(Parsed(Taken(refused, networks))) && Free(Parsed(Taken(refused, networks)), subnet)
    ensures AllDifferent(refused + [subnet]) && FreeOf(networks, subnet)
  {
    forall k | 0 <= k < |refused|
      ensures refused[k] != subnet
    {
      FreeIsNew(refused, networks, subnet, k);
    }
    forall k | 0 <= k < |networks| && networks[k].subnet.Some? && networks[k].subnet.value.Valid()
      ensures Disjoint(networks[k].subnet.value, Candidate(subnet))
    {
      var i := ParsedHas(Taken(refused, networks), |refused| + k);
    }
  }
}
