/** Variable interpolation in compose files (internal/compose/interpolate.go). */
module Interpolation {
  import opened Wrappers

  /** A variable's value, or None if it is not set. */
  type Lookup = string -> Option<string>

  datatype Error =
    | NoClosing(text: string)
    | NoName(body: string)
    | Incomplete(body: string)
    | BadOperator(body: string)
    | Required(name: string, message: string)

  type Text = Result<string, Error>

  predicate IsNameStart(c: char) {
    c == '_' || 'a' <= c <= 'z' || 'A' <= c <= 'Z'
  }

  predicate IsNameCharacter(c: char) {
    IsNameStart(c) || '0' <= c <= '9'
  }

  function ValueOf(v: Option<string>): string {
    match v case Some(value) => value case None => ""
  }

  /** Whether the variable counts as present: with a colon, empty does not. */
  predicate Present(v: Option<string>, emptyCounts: bool) {
    v.Some? && (!emptyCounts || v.value != "")
  }

  function Prepend(front: string, rest: Text): Text {
    match rest
    case Ok(text) => Ok(front + text)
    case Err(e) => Err(e)
  }

  // ---------------------------------------------------------------- The reader

  /** Where the run of name characters from from on ends. */
  function NameEnd(s: string, from: nat): (end: nat)
    requires from <= |s|
    ensures from <= end <= |s|
    ensures forall i :: from <= i < end ==> IsNameCharacter(s[i])
    ensures end < |s| ==> !IsNameCharacter(s[end])
    decreases |s| - from
  {
    if from < |s| && IsNameCharacter(s[from]) then NameEnd(s, from + 1) else from
  }

  predicate Opens(s: string, i: nat) {
    i + 1 < |s| && s[i] == '$' && s[i + 1] == '{'
  }

  /** closingBrace, with the depth it has reached: the } that closes it, passing
      over the ${...} nested in it. */
  function ClosingBrace(s: string, from: nat, depth: nat): (end: Option<nat>)
    requires from <= |s| && depth >= 1
    ensures end.Some? ==> from <= end.value < |s| && s[end.value] == '}'
    decreases |s| - from
  {
    if from == |s| then None
    else if Opens(s, from) then ClosingBrace(s, from + 2, depth + 1)
    else if s[from] == '}' then
      if depth == 1 then Some(from) else ClosingBrace(s, from + 1, depth - 1)
    else ClosingBrace(s, from + 1, depth)
  }

  /** What the loop writes for the next few characters, and how many they are. */
  datatype Piece = Piece(text: string, length: nat)

  function FirstPiece(s: string, lookup: Lookup): (r: Result<Piece, Error>)
    requires s != ""
    ensures r.Ok? ==> 1 <= r.value.length <= |s|
    decreases |s|, 0
  {
    if s[0] != '$' then Ok(Piece(s[..1], 1))
    else if |s| == 1 then Ok(Piece("$", 1))
    else if s[1] == '$' then Ok(Piece("$", 2))
    else if s[1] == '{' then
      match ClosingBrace(s, 2, 1)
      case None => Err(NoClosing(s))
      case Some(end) =>
        match Expand(s[2..end], lookup)
        case Ok(value) => Ok(Piece(value, end + 1))
        case Err(e) => Err(e)
    else if IsNameStart(s[1]) then
      var end := NameEnd(s, 1);
      Ok(Piece(ValueOf(lookup(s[1..end])), end))
    else Ok(Piece("$", 1))
  }

  function Interpolate(s: string, lookup: Lookup): Text
    decreases |s|, 1
  {
    if s == "" then Ok("")
    else
      match FirstPiece(s, lookup)
      case Err(e) => Err(e)
      case Ok(piece) => Prepend(piece.text, Interpolate(s[piece.length..], lookup))
  }

  /** The body of a ${...}: a default or other text is read only if it is used. */
  function Expand(body: string, lookup: Lookup): Text
    decreases |body|, 2
  {
    var end := NameEnd(body, 0);
    var name, rest := body[..end], body[end..];
    if name == "" || !IsNameStart(name[0]) then Err(NoName(body))
    else
      var v := lookup(name);
      if rest == "" then Ok(ValueOf(v))
      else
        var colon := rest[0] == ':';
        var op := if colon then rest[1..] else rest;
        if op == "" then Err(Incomplete(body))
        else
          var arg, present := op[1..], Present(v, colon);
          if op[0] == '-' then
            if present then Ok(ValueOf(v)) else Interpolate(arg, lookup)
          else if op[0] == '?' then
            if present then Ok(ValueOf(v)) else Demand(name, Interpolate(arg, lookup))
          else if op[0] == '+' then
            if present then Interpolate(arg, lookup) else Ok("")
          else Err(BadOperator(body))
  }

  /** The error for a variable that must be set. */
  function Demand(name: string, message: Text): Text {
    match message
    case Err(e) => Err(e)
    case Ok(text) => Err(Required(name, if text == "" then "it is not set" else text))
  }

  /** interpolate: the loop over a builder. */
  method Run(s: string, lookup: Lookup) returns (r: Text)
    ensures r == Interpolate(s, lookup)
  {
    var out, i := "", 0;
    assert s[0..] == s;
    EmptyFront(Interpolate(s, lookup));
    while i < |s|
      invariant i <= |s|
      invariant Interpolate(s, lookup) == Prepend(out, Interpolate(s[i..], lookup))
    {
      hide Interpolate;
      var piece := NextPiece(s[i..], lookup);
      InterpolateStep(s[i..], lookup);
      if piece.Err? {
        return Err(piece.error);
      }
      assert s[i..][piece.value.length..] == s[i + piece.value.length..];
      PrependTwice(out, piece.value.text, Interpolate(s[i + piece.value.length..], lookup));
      out, i := out + piece.value.text, i + piece.value.length;
    }
    assert s[|s|..] == "" && out + "" == out;
    return Ok(out);
  }

  /** One turn of the loop, on what is left of the text. */
  method NextPiece(s: string, lookup: Lookup) returns (r: Result<Piece, Error>)
    requires s != ""
    ensures r == FirstPiece(s, lookup)
  {
    if s[0] != '$' {
      return Ok(Piece(s[..1], 1));
    } else if |s| == 1 {
      return Ok(Piece("$", 1));
    } else if s[1] == '$' {
      return Ok(Piece("$", 2));
    } else if s[1] == '{' {
      var end := FindClosing(s);
      if end.None? {
        return Err(NoClosing(s));
      }
      match Expand(s[2..end.value], lookup) {
        case Err(e) => return Err(e);
        case Ok(value) => return Ok(Piece(value, end.value + 1));
      }
    } else if IsNameStart(s[1]) {
      var j := 1;
      while j < |s| && IsNameCharacter(s[j])
        invariant 1 <= j <= |s| && NameEnd(s, 1) == NameEnd(s, j)
      {
        j := j + 1;
      }
      return Ok(Piece(ValueOf(lookup(s[1..j])), j));
    } else {
      return Ok(Piece("$", 1));
    }
  }

  lemma EmptyFront(r: Text)
    ensures Prepend("", r) == r
  {
    if r.Ok? {
      assert "" + r.value == r.value;
    }
  }

  lemma PrependTwice(a: string, b: string, r: Text)
    ensures Prepend(a, Prepend(b, r)) == Prepend(a + b, r)
  {
    if r.Ok? {
      assert a + (b + r.value) == a + b + r.value;
    }
  }

  lemma InterpolateStep(s: string, lookup: Lookup)
    requires s != ""
    ensures var piece := FirstPiece(s, lookup);
            Interpolate(s, lookup) ==
            if piece.Err? then Err(piece.error)
            else Prepend(piece.value.text, Interpolate(s[piece.value.length..], lookup))
  {
  }

  /** closingBrace: the loop over a depth counter, for a text starting with ${. */
  method FindClosing(s: string) returns (end: Option<nat>)
    requires |s| >= 2
    ensures end == ClosingBrace(s, 2, 1)
  {
    var depth, i := 1, 2;
    while i < |s|
      invariant 2 <= i <= |s| && depth >= 1
      invariant ClosingBrace(s, 2, 1) == ClosingBrace(s, i, depth)
    {
      if Opens(s, i) {
        depth, i := depth + 1, i + 2;
      } else if s[i] == '}' {
        if depth == 1 {
          return Some(i);
        }
        depth, i := depth - 1, i + 1;
      } else {
        i := i + 1;
      }
    }
    return None;
  }
}
