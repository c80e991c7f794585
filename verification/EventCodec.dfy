/** That what is asked of the encoding of events can be met: an encoding of one line a
    document, none of which begins another. */
module EventCodec {
  import opened Wrappers
  import opened Events
  import opened EventFile

  // ---------------------------------------------------------------- Numbers and strings

  /** So many 1s and a 0. */
  function Unary(n: nat): string {
    if n == 0 then "0" else "1" + Unary(n - 1)
  }

  function OfInt(n: int): string {
    if n >= 0 then "0" + Unary(n) else "1" + Unary(-n)
  }

  function OfString(s: string): string {
    if s == "" then "0" else "1" + Unary(s[0] as int) + OfString(s[1..])
  }

  function OfStrings(list: seq<string>): string {
    if list == [] then "0" else "1" + OfString(list[0]) + OfStrings(list[1..])
  }

  // What follows a code can be told from it.

  lemma {:induction false} UnaryApart(a: nat, u: string, b: nat, v: string)
    requires Unary(a) + u == Unary(b) + v
    ensures a == b && u == v
    decreases a
  {
    assert (Unary(a) + u)[0] == (Unary(b) + v)[0];
    assert (Unary(a) + u)[1..] == (Unary(b) + v)[1..];
    if a == 0 {
      assert (Unary(a) + u)[1..] == u && (Unary(b) + v)[1..] == v;
    } else {
      assert (Unary(a) + u)[1..] == Unary(a - 1) + u && (Unary(b) + v)[1..] == Unary(b - 1) + v;
      UnaryApart(a - 1, u, b - 1, v);
    }
  }

  lemma IntApart(a: int, u: string, b: int, v: string)
    requires OfInt(a) + u == OfInt(b) + v
    ensures a == b && u == v
  {
    hide Unary;
    var m, n := if a >= 0 then a else -a, if b >= 0 then b else -b;
    HeadAndRest(if a >= 0 then '0' else '1', Unary(m), u, if b >= 0 then '0' else '1', Unary(n), v);
    UnaryApart(m, u, n, v);
  }

  lemma HeadAndRest(c: char, x: string, u: string, d: char, y: string, v: string)
    requires [c] + x + u == [d] + y + v
    ensures c == d && x + u == y + v
  {
    assert ([c] + x + u)[0] == ([d] + y + v)[0];
    assert ([c] + x + u)[1..] == x + u && ([d] + y + v)[1..] == y + v;
  }

  lemma {:induction false} StringApart(a: string, u: string, b: string, v: string)
    requires OfString(a) + u == OfString(b) + v
    ensures a == b && u == v
    decreases |a|
  {
    hide Unary;
    assert (OfString(a) + u)[0] == (OfString(b) + v)[0];
    if a == "" {
      assert (OfString(a) + u)[1..] == u && (OfString(b) + v)[1..] == v;
    } else {
      var m, n := a[0] as int, b[0] as int;
      assert (OfString(a) + u)[1..] == Unary(m) + (OfString(a[1..]) + u);
      assert (OfString(b) + v)[1..] == Unary(n) + (OfString(b[1..]) + v);
      UnaryApart(m, OfString(a[1..]) + u, n, OfString(b[1..]) + v);
      StringApart(a[1..], u, b[1..], v);
      assert a == [a[0]] + a[1..] && b == [b[0]] + b[1..];
    }
  }

  lemma {:induction false} StringsApart(a: seq<string>, u: string, b: seq<string>, v: string)
    requires OfStrings(a) + u == OfStrings(b) + v
    ensures a == b && u == v
    decreases |a|
  {
    hide OfString;
    assert (OfStrings(a) + u)[0] == (OfStrings(b) + v)[0];
    if a == [] {
      assert (OfStrings(a) + u)[1..] == u && (OfStrings(b) + v)[1..] == v;
    } else {
      assert (OfStrings(a) + u)[1..] == OfString(a[0]) + (OfStrings(a[1..]) + u);
      assert (OfStrings(b) + v)[1..] == OfString(b[0]) + (OfStrings(b[1..]) + v);
      StringApart(a[0], OfStrings(a[1..]) + u, b[0], OfStrings(b[1..]) + v);
      StringsApart(a[1..], u, b[1..], v);
      assert a == [a[0]] + a[1..] && b == [b[0]] + b[1..];
    }
  }

  predicate Digits(s: string) {
    forall i :: 0 <= i < |s| ==> s[i] == '0' || s[i] == '1'
  }

  lemma {:induction false} UnaryDigits(n: nat)
    ensures Digits(Unary(n))
  {
    if n > 0 {
      UnaryDigits(n - 1);
    }
  }

  lemma {:induction false} StringDigits(s: string)
    ensures Digits(OfString(s))
    decreases |s|
  {
    if s != "" {
      UnaryDigits(s[0] as int);
      StringDigits(s[1..]);
    }
  }

  lemma {:induction false} StringsDigits(list: seq<string>)
    ensures Digits(OfStrings(list))
    decreases |list|
  {
    if list != [] {
      StringDigits(list[0]);
      StringsDigits(list[1..]);
    }
  }

  // ---------------------------------------------------------------- Events

  /** Attributes as a list of keys and values, in some order. */
  ghost function Listed(m: map<string, string>): (list: seq<string>)
    ensures Gathered(list) == m
    decreases |m|
  {
    if m == map[] then []
    else
      var k :| k in m;
      var rest := m - {k};
      assert rest.Keys == m.Keys - {k};
      assert ([k, m[k]] + Listed(rest))[2..] == Listed(rest);
      assert rest[k := m[k]] == m;
      [k, m[k]] + Listed(rest)
  }

  function Gathered(list: seq<string>): map<string, string> {
    if |list| < 2 then map[] else Gathered(list[2..])[list[0] := list[1]]
  }

  ghost function Fields(e: Event): seq<string> {
    [e.kind, e.id, e.name, e.action, e.message] + Listed(e.attributes)
  }

  ghost function Encoded(e: Event): string {
    OfInt(e.time) + OfStrings(Fields(e))
  }

  lemma EncodedApart(a: Event, u: string, b: Event, v: string)
    requires Encoded(a) + u == Encoded(b) + v
    ensures a == b && u == v
  {
    hide OfInt, OfStrings;
    assert OfInt(a.time) + (OfStrings(Fields(a)) + u) == Encoded(a) + u;
    assert OfInt(b.time) + (OfStrings(Fields(b)) + v) == Encoded(b) + v;
    IntApart(a.time, OfStrings(Fields(a)) + u, b.time, OfStrings(Fields(b)) + v);
    StringsApart(Fields(a), u, Fields(b), v);
    SameFields(a, b);
  }

  lemma SameFields(a: Event, b: Event)
    requires a.time == b.time && Fields(a) == Fields(b)
    ensures a == b
  {
    var f, g := Fields(a), Fields(b);
    assert f[0] == g[0] && f[1] == g[1] && f[2] == g[2] && f[3] == g[3] && f[4] == g[4];
    assert f[5..] == Listed(a.attributes) && g[5..] == Listed(b.attributes);
  }

  ghost function Decoded(s: string): Option<Event> {
    if exists e :: Encoded(e) == s then (var e :| Encoded(e) == s; Some(e)) else None
  }

  lemma DecodedIs(e: Event)
    ensures Decoded(Encoded(e)) == Some(e)
  {
    hide Encoded;
    var d := Decoded(Encoded(e)).value;
    assert Encoded(d) + "" == Encoded(e) + "";
    EncodedApart(d, "", e, "");
  }

  lemma NoPrefixDecodes(e: Event, k: nat)
    requires k < |Encoded(e)|
    ensures Decoded(Encoded(e)[..k]) == None
  {
    hide Encoded;
    var cut := Encoded(e)[..k];
    if Decoded(cut).Some? {
      var d := Decoded(cut).value;
      assert Encoded(d) + Encoded(e)[k..] == Encoded(e) + "";
      EncodedApart(d, Encoded(e)[k..], e, "");
    }
  }

  lemma EncodedDigits(e: Event)
    ensures Digits(Encoded(e)) && Encoded(e) != ""
  {
    UnaryDigits(if e.time >= 0 then e.time else -e.time);
    StringsDigits(Fields(e));
  }

  /** There is an encoding that does all that is asked of one. */
  lemma LawfulExists() returns (c: Codec)
    ensures Lawful(c)
  {
    c := Codec(e => Encoded(e), s => Decoded(s));
    forall e: Event
      ensures Faithful(c, e)
    {
      hide Encoded, Decoded;
      DecodedIs(e);
      EncodedDigits(e);
      assert Encoded(e)[0] == '0' || Encoded(e)[0] == '1';
      forall k | 0 <= k < |Encoded(e)|
        ensures Decoded(Encoded(e)[..k]) == None
      {
        NoPrefixDecodes(e, k);
      }
    }
  }
}
