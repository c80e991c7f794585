/** What interpolation means: a template is a tree, printed as text and evaluated
    directly; reading the printed text gives what evaluating the tree does. */
module Templates {
  import opened Wrappers
  import opened Interpolation

  /** The operators of ${NAME op arg}; colon makes an empty value count as unset. */
  datatype Op = Default(colon: bool) | Require(colon: bool) | Alternate(colon: bool)

  /** A template, part after part. */
  datatype Template =
    | End
    | Literal(text: string, next: Template)
    | Variable(name: string, next: Template)                     // $NAME
    | Braced(name: string, next: Template)                       // ${NAME}
    | Operated(name: string, op: Op, arg: Template, next: Template)

  // ---------------------------------------------------------------- Meaning

  /** One text after another, or the first error. */
  function Joined(first: Text, rest: Text): Text {
    if first.Err? then first else if rest.Err? then rest else Ok(first.value + rest.value)
  }

  function Evaluate(t: Template, lookup: Lookup): Text
    decreases t, 0
  {
    match t
    case End => Ok("")
    case Literal(text, next) => Joined(Ok(text), Evaluate(next, lookup))
    case Variable(name, next) => Joined(EvaluateName(name, lookup), Evaluate(next, lookup))
    case Braced(name, next) => Joined(EvaluateName(name, lookup), Evaluate(next, lookup))
    case Operated(name, op, arg, next) => Joined(EvaluateOp(name, op, arg, lookup), Evaluate(next, lookup))
  }

  /** A variable that is not set counts as empty. */
  function EvaluateName(name: string, lookup: Lookup): Text {
    match lookup(name)
    case None => Ok("")
    case Some(value) => Ok(value)
  }

  /** What each operator gives of a variable that is unset, empty, or neither. The
      argument is evaluated only where it is used. */
  function EvaluateOp(name: string, op: Op, arg: Template, lookup: Lookup): Text
    decreases arg, 1
  {
    match (op, lookup(name))
    case (Default(_), None) => Evaluate(arg, lookup)
    case (Default(colon), Some(v)) => if v == "" && colon then Evaluate(arg, lookup) else Ok(v)
    case (Require(_), None) => Missing(name, Evaluate(arg, lookup))
    case (Require(colon), Some(v)) => if v == "" && colon then Missing(name, Evaluate(arg, lookup)) else Ok(v)
    case (Alternate(_), None) => Ok("")
    case (Alternate(colon), Some(v)) => if v == "" && colon then Ok("") else Evaluate(arg, lookup)
  }

  function Missing(name: string, message: Text): Text {
    if message.Err? then message
    else if message.value == "" then Err(Required(name, "it is not set"))
    else Err(Required(name, message.value))
  }

  // ---------------------------------------------------------------- Printing

  function DoubledChar(c: char): string {
    if c == '$' then "$$" else [c]
  }

  /** Literal text, with every $ doubled. */
  function Doubled(text: string): string {
    if text == "" then ""
    else DoubledChar(text[0]) + Doubled(text[1..])
  }

  function PrintOp(op: Op): string {
    match op
    case Default(colon) => if colon then ":-" else "-"
    case Require(colon) => if colon then ":?" else "?"
    case Alternate(colon) => if colon then ":+" else "+"
  }

  function Print(t: Template): string {
    match t
    case End => ""
    case Literal(text, next) => Doubled(text) + Print(next)
    case Variable(name, next) => "$" + name + Print(next)
    case Braced(name, next) => "${" + name + "}" + Print(next)
    case Operated(name, op, arg, next) => "${" + name + PrintOp(op) + Print(arg) + "}" + Print(next)
  }

  // ---------------------------------------------------------------- Which trees print well

  predicate IsLetter(c: char) {
    'A' <= c <= 'Z' || 'a' <= c <= 'z'
  }

  predicate IsDigit(c: char) {
    '0' <= c <= '9'
  }

  predicate IsWordCharacter(c: char) {
    IsLetter(c) || IsDigit(c) || c == '_'
  }

  predicate IsWord(name: string) {
    forall i :: 0 <= i < |name| ==> IsWordCharacter(name[i])
  }

  /** A letter or an underscore, and then letters, underscores and digits. */
  predicate IsName(name: string) {
    name != "" && IsWord(name) && !IsDigit(name[0])
  }

  /** The nesting after a text, as closingBrace counts it, or None if that many
      closing braces are met within it. */
  function Depth(x: string, depth: nat): Option<nat>
    requires depth >= 1
    decreases |x|
  {
    if x == "" then Some(depth)
    else if |x| >= 2 && x[0] == '$' && x[1] == '{' then Depth(x[2..], depth + 1)
    else if x[0] == '}' then if depth == 1 then None else Depth(x[1..], depth - 1)
    else Depth(x[1..], depth)
  }

  /** A text that closes what it opens and nothing else, as closingBrace sees it:
      one with no } and no ${ does, and so does one where they pair up. */
  predicate Balanced(x: string) {
    Depth(x, 1) == Some(1)
  }

  /** y does not complete a ${ that x has begun. */
  predicate Separate(x: string, y: string) {
    x != "" && y != "" && x[|x| - 1] == '$' ==> y[0] != '{'
  }

  /** Names are names, a $NAME is not run into by what follows, and literals
      within braces are balanced. */
  predicate WellFormed(t: Template, nested: bool) {
    match t
    case End => true
    case Literal(text, next) =>
      && WellFormed(next, nested)
      && (nested ==> Balanced(Doubled(text)) && Separate(Doubled(text), Print(next)))
    case Variable(name, next) =>
      && IsName(name) && WellFormed(next, nested)
      && (Print(next) != "" ==> !IsWordCharacter(Print(next)[0]))
    case Braced(name, next) => IsName(name) && WellFormed(next, nested)
    case Operated(name, _, arg, next) => IsName(name) && WellFormed(arg, true) && WellFormed(next, nested)
  }

  // ---------------------------------------------------------------- Nesting

  lemma {:induction false} DepthShift(x: string, depth: nat, more: nat)
    requires depth >= 1 && Depth(x, depth).Some?
    ensures Depth(x, depth + more) == Some(Depth(x, depth).value + more)
    decreases |x|
  {
    if x != "" {
      if Opens(x, 0) {
        DepthShift(x[2..], depth + 1, more);
      } else if x[0] == '}' {
        DepthShift(x[1..], depth - 1, more);
      } else {
        DepthShift(x[1..], depth, more);
      }
    }
  }

  lemma {:induction false} DepthPositive(x: string, depth: nat)
    requires depth >= 1 && Depth(x, depth).Some?
    ensures Depth(x, depth).value >= 1
    decreases |x|
  {
    if x != "" {
      if Opens(x, 0) {
        DepthPositive(x[2..], depth + 1);
      } else if x[0] == '}' {
        DepthPositive(x[1..], depth - 1);
      } else {
        DepthPositive(x[1..], depth);
      }
    }
  }

  lemma {:induction false} DepthConcat(x: string, y: string, depth: nat)
    requires depth >= 1 && Separate(x, y) && Depth(x, depth).Some?
    ensures Depth(x, depth).value >= 1 && Depth(x + y, depth) == Depth(y, Depth(x, depth).value)
    decreases |x|
  {
    if x == "" {
      assert x + y == y;
    } else if Opens(x, 0) {
      assert (x + y)[2..] == x[2..] + y;
      DepthConcat(x[2..], y, depth + 1);
    } else {
      assert (x + y)[1..] == x[1..] + y && !Opens(x + y, 0);
      DepthConcat(x[1..], y, if x[0] == '}' then depth - 1 else depth);
    }
  }

  /** Past a text that opens and closes what it will, the brace sought is found
      where it is in the rest. */
  lemma {:induction false} ClosingAfter(s: string, from: nat, x: string, rest: string, depth: nat)
    requires depth >= 1 && Separate(x, rest) && Depth(x, depth) == Some(1)
    requires from <= |s| && s[from..] == x + rest && rest != "" && rest[0] == '}'
    ensures ClosingBrace(s, from, depth) == Some(from + |x|)
    decreases |x|
  {
    if x == "" {
      assert s[from] == s[from..][0] == rest[0];
    } else {
      assert s[from] == s[from..][0] == x[0];
      var n := if Opens(x, 0) then 2 else 1;
      assert s[from + n..] == s[from..][n..] == x[n..] + rest;
      if from + 1 < |s| {
        assert s[from + 1] == s[from..][1] == (x + rest)[1];
      }
      var next := if Opens(x, 0) then depth + 1 else if x[0] == '}' then depth - 1 else depth;
      ClosingAfter(s, from + n, x[n..], rest, next);
    }
  }

  /** Characters closingBrace takes no notice of. */
  predicate Quiet(x: string) {
    forall i :: 0 <= i < |x| ==> x[i] != '$' && x[i] != '}'
  }

  lemma {:induction false} QuietDepth(x: string, depth: nat)
    requires Quiet(x) && depth >= 1
    ensures Depth(x, depth) == Some(depth)
    decreases |x|
  {
    if x != "" {
      QuietDepth(x[1..], depth);
    }
  }

  lemma NameIsQuiet(name: string)
    requires IsName(name)
    ensures Quiet(name)
  {
  }

  /** ${ ... } around a text of even nesting nests evenly. */
  lemma DepthBraces(head: string, body: string, depth: nat)
    requires depth >= 1 && Quiet(head) && Depth(body, depth + 1) == Some(depth + 1)
    ensures Depth("${" + (head + body + "}"), depth) == Some(depth)
  {
    QuietDepth(head, depth + 1);
    var inside := head + body + "}";
    assert ("${" + inside)[2..] == inside && Opens("${" + inside, 0);
    hide Depth;
    assert head + (body + "}") == inside;
    DepthConcat(head, body + "}", depth + 1);
    DepthConcat(body, "}", depth + 1);
    DepthClose(depth);
    DepthOpen(inside, depth);
  }

  lemma DepthOpen(x: string, depth: nat)
    requires depth >= 1
    ensures Depth("${" + x, depth) == Depth(x, depth + 1)
  {
    assert ("${" + x)[2..] == x && Opens("${" + x, 0);
  }

  lemma DepthClose(depth: nat)
    requires depth >= 1
    ensures Depth("}", depth + 1) == Some(depth)
  {
    assert "}"[1..] == "";
  }

  lemma DepthVariable(name: string, depth: nat)
    requires IsName(name) && depth >= 1
    ensures Depth("$" + name, depth) == Some(depth)
  {
    NameIsQuiet(name);
    QuietDepth(name, depth);
    assert ("$" + name)[1..] == name && !Opens("$" + name, 0);
  }

  lemma {:induction false} NestedDepth(t: Template, depth: nat)
    requires WellFormed(t, true) && depth >= 1
    ensures Depth(Print(t), depth) == Some(depth)
    decreases t
  {
    hide Depth;
    match t
    case End =>
      EmptyDepth(depth);
    case Literal(text, next) =>
      DepthShift(Doubled(text), 1, depth - 1);
      DepthConcat(Doubled(text), Print(next), depth);
      NestedDepth(next, depth);
    case Variable(name, next) =>
      DepthVariable(name, depth);
      DepthConcat("$" + name, Print(next), depth);
      NestedDepth(next, depth);
    case Braced(name, next) =>
      NameIsQuiet(name);
      EmptyDepth(depth + 1);
      DepthBraces(name, "", depth);
      assert "${" + (name + "" + "}") == "${" + name + "}";
      DepthConcat("${" + name + "}", Print(next), depth);
      NestedDepth(next, depth);
    case Operated(name, op, arg, next) =>
      HeadIsQuiet(name, op);
      NestedDepth(arg, depth + 1);
      DepthBraces(name + PrintOp(op), Print(arg), depth);
      var braced := "${" + name + PrintOp(op) + Print(arg) + "}";
      assert "${" + (name + PrintOp(op) + Print(arg) + "}") == braced;
      DepthConcat(braced, Print(next), depth);
      NestedDepth(next, depth);
  }

  lemma EmptyDepth(depth: nat)
    requires depth >= 1
    ensures Depth("", depth) == Some(depth)
  {
  }

  lemma HeadIsQuiet(name: string, op: Op)
    requires IsName(name)
    ensures Quiet(name + PrintOp(op))
  {
    NameIsQuiet(name);
  }

  // ---------------------------------------------------------------- Reading what is printed

  lemma ReadCharacter(c: char, tail: string, lookup: Lookup)
    ensures Interpolate(DoubledChar(c) + tail, lookup) == Prepend([c], Interpolate(tail, lookup))
  {
    var s := DoubledChar(c) + tail;
    assert s[..1] == [s[0]] && s[|DoubledChar(c)|..] == tail;
    assert FirstPiece(s, lookup) == Ok(Piece([c], |DoubledChar(c)|));
    hide Interpolate, FirstPiece;
    InterpolateStep(s, lookup);
  }

  lemma {:induction false} ReadLiteral(text: string, rest: string, lookup: Lookup)
    ensures Interpolate(Doubled(text) + rest, lookup) == Prepend(text, Interpolate(rest, lookup))
    decreases |text|
  {
    hide Interpolate;
    if text == "" {
      assert Doubled(text) + rest == rest;
      EmptyFront(Interpolate(rest, lookup));
    } else {
      var c, tail := text[0], Doubled(text[1..]) + rest;
      assert Doubled(text) + rest == DoubledChar(c) + tail;
      hide Doubled, DoubledChar;
      ReadCharacter(c, tail, lookup);
      ReadLiteral(text[1..], rest, lookup);
      PrependTwice([c], text[1..], Interpolate(rest, lookup));
      assert [c] + text[1..] == text;
    }
  }

  lemma {:induction false} NameEndIs(s: string, from: nat, end: nat)
    requires from <= end <= |s| && (forall i :: from <= i < end ==> IsNameCharacter(s[i]))
    requires end < |s| ==> !IsNameCharacter(s[end])
    ensures NameEnd(s, from) == end
    decreases end - from
  {
    if from < end {
      NameEndIs(s, from + 1, end);
    }
  }

  lemma ReadVariable(name: string, rest: string, lookup: Lookup)
    requires IsName(name) && (rest != "" ==> !IsWordCharacter(rest[0]))
    ensures Interpolate("$" + name + rest, lookup) == Prepend(ValueOf(lookup(name)), Interpolate(rest, lookup))
  {
    var s := "$" + name + rest;
    var end := 1 + |name|;
    assert s[1..end] == name && s[end..] == rest;
    forall i | 1 <= i < end
      ensures IsNameCharacter(s[i])
    {
      assert s[i] == name[i - 1];
    }
    NameEndIs(s, 1, end);
    assert s[0] == '$' && s[1] == name[0] && IsNameStart(s[1]);
    assert FirstPiece(s, lookup) == Ok(Piece(ValueOf(lookup(name)), 1 + |name|));
    hide Interpolate, FirstPiece;
    InterpolateStep(s, lookup);
  }

  /** ${body} followed by rest, when the body nests evenly. */
  lemma ReadBraces(body: string, rest: string, lookup: Lookup)
    requires Depth(body, 1) == Some(1)
    ensures var s := "${" + body + "}" + rest;
            var value := Expand(body, lookup);
            Interpolate(s, lookup) ==
            if value.Err? then value else Prepend(value.value, Interpolate(rest, lookup))
  {
    hide Interpolate, Expand, Depth;
    var s := "${" + body + "}" + rest;
    var end := 2 + |body|;
    assert s[2..] == body + ("}" + rest);
    ClosingAfter(s, 2, body, "}" + rest, 1);
    assert s[2..end] == body && s[end + 1..] == rest;
    InterpolateStep(s, lookup);
  }

  lemma ExpandName(name: string, lookup: Lookup)
    requires IsName(name)
    ensures Expand(name, lookup) == Ok(ValueOf(lookup(name)))
  {
    NameEndIs(name, 0, |name|);
    assert name[..|name|] == name && name[|name|..] == "";
  }

  lemma AfterName(name: string, more: string)
    requires IsName(name) && (more != "" ==> !IsWordCharacter(more[0]))
    ensures NameEnd(name + more, 0) == |name| && (name + more)[..|name|] == name && (name + more)[|name|..] == more
  {
    NameEndIs(name + more, 0, |name|);
  }

  lemma OperatorSplits(op: Op, arg: string)
    ensures var rest := PrintOp(op) + arg;
            && rest != "" && !IsWordCharacter(rest[0]) && (rest[0] == ':' <==> op.colon)
            && var after := if op.colon then rest[1..] else rest;
               && after != "" && after[1..] == arg
               && after[0] == (match op case Default(_) => '-' case Require(_) => '?' case Alternate(_) => '+')
  {
    var rest := PrintOp(op) + arg;
    if op.colon {
      assert rest[1..] == PrintOp(op)[1..] + arg && rest[1..][1..] == arg;
    } else {
      assert rest[1..] == arg;
    }
  }

  lemma ExpandOp(name: string, op: Op, arg: string, lookup: Lookup)
    requires IsName(name)
    ensures var v := lookup(name);
            Expand(name + PrintOp(op) + arg, lookup) ==
            match op
            case Default(colon) => if Present(v, colon) then Ok(ValueOf(v)) else Interpolate(arg, lookup)
            case Require(colon) => if Present(v, colon) then Ok(ValueOf(v)) else Demand(name, Interpolate(arg, lookup))
            case Alternate(colon) => if Present(v, colon) then Interpolate(arg, lookup) else Ok("")
  {
    hide Interpolate, NameEnd, PrintOp, Present, ValueOf, Demand, IsWordCharacter;
    OperatorSplits(op, arg);
    AfterName(name, PrintOp(op) + arg);
    NameStarts(name);
    assert name + PrintOp(op) + arg == name + (PrintOp(op) + arg);
  }

  lemma NameStarts(name: string)
    requires IsName(name)
    ensures name != "" && IsNameStart(name[0])
  {
  }

  /** Interpolating a template's printed form gives what evaluating it does. */
  lemma {:induction false} ReadingIsEvaluating(t: Template, nested: bool, lookup: Lookup)
    requires WellFormed(t, nested)
    ensures Interpolate(Print(t), lookup) == Evaluate(t, lookup)
    decreases t
  {
    hide Interpolate, Expand, Depth, Doubled, PrintOp, EvaluateOp;
    match t
    case End =>
      ReadNothing(lookup);
    case Literal(text, next) =>
      ReadLiteral(text, Print(next), lookup);
      ReadingIsEvaluating(next, nested, lookup);
    case Variable(name, next) =>
      ReadVariable(name, Print(next), lookup);
      ReadingIsEvaluating(next, nested, lookup);
    case Braced(name, next) =>
      NameIsQuiet(name);
      QuietDepth(name, 1);
      ReadBraces(name, Print(next), lookup);
      ExpandName(name, lookup);
      ReadingIsEvaluating(next, nested, lookup);
    case Operated(name, op, arg, next) =>
      ReadingIsEvaluating(arg, true, lookup);
      ReadOperated(name, op, arg, Print(next), lookup);
      ReadingIsEvaluating(next, nested, lookup);
  }

  lemma ReadOperated(name: string, op: Op, arg: Template, rest: string, lookup: Lookup)
    requires IsName(name) && WellFormed(arg, true) && Interpolate(Print(arg), lookup) == Evaluate(arg, lookup)
    ensures var value := EvaluateOp(name, op, arg, lookup);
            Interpolate("${" + name + PrintOp(op) + Print(arg) + "}" + rest, lookup) ==
            if value.Err? then value else Prepend(value.value, Interpolate(rest, lookup))
  {
    hide Interpolate, Expand, Depth, Evaluate, Print, PrintOp;
    var body := name + PrintOp(op) + Print(arg);
    BodyDepth(name, op, arg);
    ReadBraces(body, rest, lookup);
    assert "${" + body + "}" + rest == "${" + name + PrintOp(op) + Print(arg) + "}" + rest;
    ExpandOp(name, op, Print(arg), lookup);
  }

  lemma BodyDepth(name: string, op: Op, arg: Template)
    requires IsName(name) && WellFormed(arg, true)
    ensures Depth(name + PrintOp(op) + Print(arg), 1) == Some(1)
  {
    hide Depth;
    HeadIsQuiet(name, op);
    QuietDepth(name + PrintOp(op), 1);
    NestedDepth(arg, 1);
    DepthConcat(name + PrintOp(op), Print(arg), 1);
  }

  lemma ReadNothing(lookup: Lookup)
    ensures Interpolate("", lookup) == Ok("")
  {
  }

  /** Any text with every $ doubled is read as itself. */
  lemma DoubledReadsBack(text: string, lookup: Lookup)
    ensures Interpolate(Doubled(text), lookup) == Ok(text)
  {
    ReadLiteral(text, "", lookup);
    ReadNothing(lookup);
    assert Doubled(text) + "" == Doubled(text) && text + "" == text;
  }

  // ---------------------------------------------------------------- Exactly when

  /** ${NAME op text} means the text as the operator's argument. */
  ghost predicate ArgumentIs(name: string, op: Op, text: string, lookup: Lookup) {
    Interpolate("${" + name + PrintOp(op) + Doubled(text) + "}", lookup) ==
    Evaluate(Operated(name, op, Literal(text, End), End), lookup)
  }

  /** Variables with which the operator does not use its argument, and what it then
      gives. */
  function Unused(op: Op): Lookup {
    if op.Alternate? then (n => None) else (n => Some("v"))
  }

  function Given(op: Op): string {
    if op.Alternate? then "" else "v"
  }

  lemma UnusedArgument(name: string, op: Op, text: string)
    ensures Evaluate(Operated(name, op, Literal(text, End), End), Unused(op)) == Ok(Given(op))
  {
    var t := Operated(name, op, Literal(text, End), End);
    assert EvaluateOp(name, t.op, t.arg, Unused(op)) == Ok(Given(op));
    assert Evaluate(t.next, Unused(op)) == Ok("") && Given(op) + "" == Given(op);
  }

  lemma UnusedExpands(name: string, op: Op, arg: string)
    requires IsName(name)
    ensures Expand(name + PrintOp(op) + arg, Unused(op)) == Ok(Given(op))
  {
    hide Interpolate, Expand, PrintOp;
    ExpandOp(name, op, arg, Unused(op));
  }

  /** A text with a } too many has one that closes what was open before it. */
  lemma {:induction false} ExtraClose(x: string, depth: nat) returns (k: nat)
    requires depth >= 1 && Depth(x, depth) == None
    ensures k < |x| && x[k] == '}' && Depth(x[..k], depth) == Some(1)
    decreases |x|
  {
    if Opens(x, 0) {
      k := ExtraClose(x[2..], depth + 1);
      k := k + 2;
      assert x[..k][2..] == x[2..][..k - 2];
    } else if x[0] == '}' && depth == 1 {
      k := 0;
    } else {
      k := ExtraClose(x[1..], if x[0] == '}' then depth - 1 else depth);
      k := k + 1;
      assert x[..k][1..] == x[1..][..k - 1];
    }
  }

  lemma {:induction false} SplitDoubled(text: string, k: nat) returns (j: nat)
    requires k < |Doubled(text)| && Doubled(text)[k] == '}'
    ensures j < |text| && Doubled(text[j + 1..]) == Doubled(text)[k + 1..]
    decreases |text|
  {
    var n := if text[0] == '$' then 2 else 1;
    assert Doubled(text)[n..] == Doubled(text[1..]);
    if k < n {
      j := 0;
    } else {
      assert Doubled(text)[k] == Doubled(text)[n..][k - n];
      j := SplitDoubled(text[1..], k - n);
      assert text[1..][j + 1..] == text[j + 2..];
      assert Doubled(text)[n..][k - n + 1..] == Doubled(text)[k + 1..];
      j := j + 1;
    }
  }

  /** With the brace found early, what follows is left in the text. */
  lemma ClosedEarly(name: string, op: Op, text: string)
    requires IsName(name) && Depth(Doubled(text), 1) == None
    ensures !ArgumentIs(name, op, text, Unused(op))
  {
    hide Depth, Interpolate, Expand, Doubled, PrintOp, Unused, Given;
    var x, lookup := Doubled(text), Unused(op);
    var k := ExtraClose(x, 1);
    var j := SplitDoubled(text, k);
    var head, left := name + PrintOp(op), text[j + 1..];
    var body := head + x[..k];
    HeadIsQuiet(name, op);
    QuietDepth(head, 1);
    DepthConcat(head, x[..k], 1);
    ReadBraces(body, Doubled(left) + "}", lookup);
    UnusedExpands(name, op, x[..k]);
    ReadLiteral(left, "}", lookup);
    ReadBrace(lookup);
    UnusedArgument(name, op, text);
    assert x == x[..k] + "}" + x[k + 1..];
    assert "${" + name + PrintOp(op) + x + "}" == "${" + body + "}" + (Doubled(left) + "}");
    assert |Given(op) + (left + "}")| > |Given(op)|;
  }

  lemma ReadBrace(lookup: Lookup)
    ensures Interpolate("}", lookup) == Ok("}")
  {
    var s := "}";
    assert s[..1] == s && s[1..] == "";
    InterpolateStep(s, lookup);
    ReadNothing(lookup);
    assert s + "" == s;
  }

  lemma {:induction false} NeverClosed(s: string, from: nat, depth: nat)
    requires from <= |s| && depth >= 1 && Depth(s[from..], depth).Some?
    ensures ClosingBrace(s, from, depth) == None
    decreases |s| - from
  {
    if from < |s| {
      assert s[from..][0] == s[from];
      assert s[from..][1..] == s[from + 1..];
      if from + 1 < |s| {
        assert s[from..][1] == s[from + 1];
        assert s[from..][2..] == s[from + 2..];
      }
      if Opens(s, from) {
        NeverClosed(s, from + 2, depth + 1);
      } else {
        NeverClosed(s, from + 1, if s[from] == '}' then depth - 1 else depth);
      }
    }
  }

  /** With one ${ too many, no closing brace is found. */
  lemma LeftOpen(name: string, op: Op, text: string)
    requires IsName(name) && Depth(Doubled(text), 1).Some? && Depth(Doubled(text), 1) != Some(1)
    ensures !ArgumentIs(name, op, text, Unused(op))
  {
    hide Depth, Doubled, Interpolate, PrintOp, Unused, Given;
    var x, head := Doubled(text), name + PrintOp(op);
    var s := "${" + name + PrintOp(op) + x + "}";
    HeadIsQuiet(name, op);
    QuietDepth(head, 1);
    DepthPositive(x, 1);
    DepthConcat(x, "}", 1);
    DepthConcat(head, x + "}", 1);
    DepthClose(Depth(x, 1).value - 1);
    assert s[2..] == head + (x + "}");
    NeverClosed(s, 2, 1);
    InterpolateStep(s, Unused(op));
    UnusedArgument(name, op, text);
  }

  lemma BalancedArgument(name: string, op: Op, text: string, lookup: Lookup)
    requires IsName(name) && Balanced(Doubled(text))
    ensures ArgumentIs(name, op, text, lookup)
  {
    hide Depth, Doubled, Interpolate, PrintOp;
    var arg := Literal(text, End);
    var t := Operated(name, op, arg, End);
    assert Print(arg) == Doubled(text) + "" == Doubled(text);
    var s := "${" + name + PrintOp(op) + Doubled(text) + "}";
    assert Print(t) == s + "" == s;
    assert WellFormed(arg, true);
    ReadingIsEvaluating(t, false, lookup);
  }

  /** Which literal arguments can be written, for every operator: whatever the
      variables are, ${NAME op text} means the text as argument exactly when the
      text, its $ doubled, is balanced. A } too many ends the argument early, and a
      ${ too many leaves it unclosed, although a doubled $ is documented as a
      literal one. */
  lemma ArgumentMeansItselfIff(name: string, op: Op, text: string)
    requires IsName(name)
    ensures Balanced(Doubled(text)) <==> forall lookup: Lookup :: ArgumentIs(name, op, text, lookup)
  {
    hide ArgumentIs, Depth, Doubled;
    if Balanced(Doubled(text)) {
      forall lookup: Lookup
        ensures ArgumentIs(name, op, text, lookup)
      {
        BalancedArgument(name, op, text, lookup);
      }
    } else if Depth(Doubled(text), 1) == None {
      ClosedEarly(name, op, text);
    } else {
      LeftOpen(name, op, text);
    }
  }

  /** The literal "${" cannot be a default, although "$${" is how it is written. */
  lemma DoubledBraceFails(lookup: Lookup)
    ensures Interpolate("${A:-$${}", lookup) == Err(NoClosing("${A:-$${}"))
  {
    var s := "${A:-$${}";
    assert ClosingBrace(s, 2, 1) == ClosingBrace(s, 6, 1) == ClosingBrace(s, 8, 2) == None;
  }

  // ---------------------------------------------------------------- Written out

  /** $NAME and ${NAME}: the value, or empty if it is not set. */
  lemma VariablesAre(name: string, lookup: Lookup)
    requires IsName(name)
    ensures var value := if lookup(name).Some? then lookup(name).value else "";
            Interpolate("$" + name, lookup) == Ok(value) && Interpolate("${" + name + "}", lookup) == Ok(value)
  {
    hide Interpolate;
    var plain, braced := Variable(name, End), Braced(name, End);
    assert Print(plain) == "$" + name + "" == "$" + name;
    assert Print(braced) == "${" + name + "}" + "" == "${" + name + "}";
    ReadingIsEvaluating(plain, false, lookup);
    ReadingIsEvaluating(braced, false, lookup);
    var value := if lookup(name).Some? then lookup(name).value else "";
    assert Evaluate(End, lookup) == Ok("") && value + "" == value;
    assert Evaluate(plain, lookup) == Ok(value) && Evaluate(braced, lookup) == Ok(value);
  }

  /** ${NAME op text}, as it is written. */
  function Written(name: string, op: string, text: string): string {
    "${" + name + op + Doubled(text) + "}"
  }

  lemma WrittenIs(name: string, op: Op, text: string, lookup: Lookup)
    requires IsName(name) && Balanced(Doubled(text))
    ensures Interpolate(Written(name, PrintOp(op), text), lookup) == EvaluateOp(name, op, Literal(text, End), lookup)
    ensures Evaluate(Literal(text, End), lookup) == Ok(text)
  {
    hide Interpolate, Depth, Doubled, PrintOp;
    BalancedArgument(name, op, text, lookup);
    var arg := Literal(text, End);
    assert Evaluate(End, lookup) == Ok("") && text + "" == text;
    var value := EvaluateOp(name, op, arg, lookup);
    assert value.Ok? ==> value.value + "" == value.value;
    assert Evaluate(Operated(name, op, arg, End), lookup) == Joined(value, Ok("")) == value;
  }

  /** With a colon, an empty variable counts as unset: the default, the error and no
      alternative are for both. */
  lemma ColonOperators(name: string, text: string, lookup: Lookup)
    requires IsName(name) && Balanced(Doubled(text))
    ensures lookup(name) == None || lookup(name) == Some("") ==>
              && Interpolate(Written(name, ":-", text), lookup) == Ok(text)
              && Interpolate(Written(name, ":?", text), lookup) ==
                 Err(Required(name, if text == "" then "it is not set" else text))
              && Interpolate(Written(name, ":+", text), lookup) == Ok("")
    ensures forall v :: lookup(name) == Some(v) && v != "" ==>
              && Interpolate(Written(name, ":-", text), lookup) == Ok(v)
              && Interpolate(Written(name, ":?", text), lookup) == Ok(v)
              && Interpolate(Written(name, ":+", text), lookup) == Ok(text)
  {
    hide Interpolate, Depth, Doubled, Written;
    WrittenIs(name, Default(true), text, lookup);
    WrittenIs(name, Require(true), text, lookup);
    WrittenIs(name, Alternate(true), text, lookup);
  }

  /** Without one, only an unset variable does. */
  lemma PlainOperators(name: string, text: string, lookup: Lookup)
    requires IsName(name) && Balanced(Doubled(text))
    ensures lookup(name) == None ==>
              && Interpolate(Written(name, "-", text), lookup) == Ok(text)
              && Interpolate(Written(name, "?", text), lookup) ==
                 Err(Required(name, if text == "" then "it is not set" else text))
              && Interpolate(Written(name, "+", text), lookup) == Ok("")
    ensures forall v :: lookup(name) == Some(v) ==>
              && Interpolate(Written(name, "-", text), lookup) == Ok(v)
              && Interpolate(Written(name, "?", text), lookup) == Ok(v)
              && Interpolate(Written(name, "+", text), lookup) == Ok(text)
  {
    hide Interpolate, Depth, Doubled, Written;
    WrittenIs(name, Default(false), text, lookup);
    WrittenIs(name, Require(false), text, lookup);
    WrittenIs(name, Alternate(false), text, lookup);
  }

  /** A $ that nothing can be read from is itself. */
  lemma LoneDollar(rest: string, lookup: Lookup)
    requires rest != "" ==> rest[0] != '$' && rest[0] != '{' && rest[0] != '_' && !IsLetter(rest[0])
    ensures Interpolate("$" + rest, lookup) == Joined(Ok("$"), Interpolate(rest, lookup))
  {
    var s := "$" + rest;
    assert s[1..] == rest && (rest != "" ==> s[1] == rest[0]);
    assert FirstPiece(s, lookup) == Ok(Piece("$", 1));
    hide Interpolate, FirstPiece;
    InterpolateStep(s, lookup);
  }

  // What is refused, and why.

  lemma Refused(body: string, rest: string, lookup: Lookup, e: Error)
    requires Balanced(body) && Expand(body, lookup) == Err(e)
    ensures Interpolate("${" + body + "}" + rest, lookup) == Err(e)
  {
    hide Interpolate, Expand, Depth;
    ReadBraces(body, rest, lookup);
  }

  /** Braces without a name. */
  lemma NoNameIsRefused(body: string, rest: string, lookup: Lookup)
    requires Balanced(body) && (body == "" || !(IsLetter(body[0]) || body[0] == '_'))
    ensures Interpolate("${" + body + "}" + rest, lookup) == Err(NoName(body))
  {
    hide Interpolate, Depth;
    assert NameEnd(body, 0) > 0 ==> body[..NameEnd(body, 0)][0] == body[0];
    Refused(body, rest, lookup, NoName(body));
  }

  /** A name and a colon only. */
  lemma NoOperatorIsRefused(name: string, rest: string, lookup: Lookup)
    requires IsName(name)
    ensures Interpolate("${" + (name + ":") + "}" + rest, lookup) == Err(Incomplete(name + ":"))
  {
    var body := name + ":";
    AfterName(name, ":");
    NameIsQuiet(name);
    assert Quiet(body);
    QuietDepth(body, 1);
    hide Interpolate, Depth;
    assert ":"[1..] == "";
    Refused(body, rest, lookup, Incomplete(body));
  }

  /** A name and what is no operator. */
  lemma BadOperatorIsRefused(name: string, colon: bool, c: char, more: string, rest: string, lookup: Lookup)
    requires IsName(name) && c != '-' && c != '?' && c != '+'
    requires !colon ==> c != ':' && !IsWordCharacter(c)
    requires Balanced(name + (if colon then ":" else "") + [c] + more)
    ensures var body := name + (if colon then ":" else "") + [c] + more;
            Interpolate("${" + body + "}" + rest, lookup) == Err(BadOperator(body))
  {
    hide Interpolate, Depth;
    var after := (if colon then ":" else "") + [c] + more;
    var body := name + (if colon then ":" else "") + [c] + more;
    assert body == name + after;
    AfterName(name, after);
    assert colon ==> after[1..] == [c] + more;
    Refused(body, rest, lookup, BadOperator(body));
  }
}
