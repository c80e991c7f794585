/** Shell words: splitShellWords (internal/compose/file.go) reads them, shellJoin
    (internal/cli/instance_details.go) writes them, quoting as in section 2.2 of
    the POSIX.1-2017 Shell Command Language. */
module ShellWords {
  import opened Wrappers

  datatype Quote = NoQuote | Single | Double

  /** The splitter's variables. */
  datatype State = State(args: seq<string>, word: string, inWord: bool, quote: Quote, escaped: bool)

  datatype Error = Unterminated(quote: Quote) | TrailingBackslash

  predicate IsBlank(c: char) {
    c == ' ' || c == '\t' || c == '\n'
  }

  /** In double quotes a backslash escapes only these. */
  predicate EscapedInDouble(c: char) {
    c == '"' || c == '\\' || c == '$' || c == '`'
  }

  // ---------------------------------------------------------------- Splitting

  const START := State([], "", false, NoQuote, false)

  /** Whether the splitter takes the next two characters at once. */
  predicate TakesTwo(st: State, s: string)
    requires s != ""
  {
    !st.escaped && st.quote.Double? && s[0] == '\\' && |s| > 1 && EscapedInDouble(s[1])
  }

  /** What one character does. */
  function Step(st: State, c: char): State {
    if st.escaped then st.(word := st.word + [c], escaped := false)
    else match st.quote
         case Single =>
           if c == '\'' then st.(quote := NoQuote) else st.(word := st.word + [c])
         case Double =>
           if c == '"' then st.(quote := NoQuote) else st.(word := st.word + [c])
         case NoQuote =>
           if c == '\\' then st.(escaped := true, inWord := true)
           else if c == '\'' then st.(quote := Single, inWord := true)
           else if c == '"' then st.(quote := Double, inWord := true)
           else if IsBlank(c) then
             if st.inWord then st.(args := st.args + [st.word], word := "", inWord := false) else st
           else st.(word := st.word + [c], inWord := true)
  }

  function Scan(st: State, s: string): State
    decreases |s|
  {
    if s == "" then st
    else if TakesTwo(st, s) then Scan(st.(word := st.word + [s[1]]), s[2..])
    else Scan(Step(st, s[0]), s[1..])
  }

  function Finish(st: State): Result<seq<string>, Error> {
    if !st.quote.NoQuote? then Err(Unterminated(st.quote))
    else if st.escaped then Err(TrailingBackslash)
    else Ok(if st.inWord then st.args + [st.word] else st.args)
  }

  /** splitShellWords. */
  method Split(s: string) returns (r: Result<seq<string>, Error>)
    ensures r == Finish(Scan(START, s))
  {
    var args: seq<string>, word, inWord, quote, escaped := [], "", false, NoQuote, false;
    var i := 0;
    while i < |s|
      invariant i <= |s|
      invariant Scan(START, s) == Scan(State(args, word, inWord, quote, escaped), s[i..])
    {
      var c := s[i];
      ghost var before := State(args, word, inWord, quote, escaped);
      assert s[i..][0] == c && s[i..][1..] == s[i + 1..];
      if escaped {
        word, escaped := word + [c], false;
      } else if quote.Single? {
        if c == '\'' {
          quote := NoQuote;
        } else {
          word := word + [c];
        }
      } else if quote.Double? {
        if c == '"' {
          quote := NoQuote;
        } else if c == '\\' && i + 1 < |s| && EscapedInDouble(s[i + 1]) {
          assert TakesTwo(before, s[i..]) && s[i..][2..] == s[i + 2..];
          word := word + [s[i + 1]];
          i := i + 1;
        } else {
          word := word + [c];
        }
      } else if c == '\\' {
        escaped, inWord := true, true;
      } else if c == '\'' {
        quote, inWord := Single, true;
      } else if c == '"' {
        quote, inWord := Double, true;
      } else if IsBlank(c) {
        if inWord {
          args, word, inWord := args + [word], "", false;
        }
      } else {
        word, inWord := word + [c], true;
      }
      i := i + 1;
    }
    if !quote.NoQuote? {
      return Err(Unterminated(quote));
    }
    if escaped {
      return Err(TrailingBackslash);
    }
    if inWord {
      args := args + [word];
    }
    return Ok(args);
  }

  // ---------------------------------------------------------------- Joining

  const SPECIAL := " \t\n'\"\\$`*?[]{}()<>|&;#~"

  predicate Plain(a: string) {
    a != "" && forall i :: 0 <= i < |a| ==> a[i] !in SPECIAL
  }

  /** Every single quote written so that it survives single quotes. */
  function Escape(a: string): string {
    if a == "" then ""
    else (if a[0] == '\'' then "'\\''" else [a[0]]) + Escape(a[1..])
  }

  function Quoted(a: string): string {
    if Plain(a) then a else "'" + Escape(a) + "'"
  }

  function Join(args: seq<string>): string {
    if args == [] then ""
    else if |args| == 1 then Quoted(args[0])
    else Join(args[..|args| - 1]) + " " + Quoted(args[|args| - 1])
  }

  /** shellJoin. */
  method ShellJoin(args: seq<string>) returns (line: string)
    ensures line == Join(args)
  {
    line := "";
    for i := 0 to |args|
      invariant line == Join(args[..i])
    {
      assert args[..i + 1][..i] == args[..i];
      if i > 0 {
        line := line + " ";
      }
      line := line + Quoted(args[i]);
    }
    assert args[..|args|] == args;
  }

  /** A character that a shell, given it bare, would not take as it stands. */
  predicate IsSpecial(c: char) {
    || c == ' ' || c == '\t' || c == '\n' || c == '\'' || c == '"' || c == '\\' || c == '$' || c == '`' || c == '*'
    || c == '?' || c == '[' || c == ']' || c == '{' || c == '}' || c == '(' || c == ')' || c == '<' || c == '>'
    || c == '|' || c == '&' || c == ';' || c == '#' || c == '~'
  }

  lemma SpecialAre(c: char)
    ensures c in SPECIAL <==> IsSpecial(c)
  {
    assert |SPECIAL| == 23;
    assert SPECIAL[0] == ' ' && SPECIAL[1] == '\t' && SPECIAL[2] == '\n' && SPECIAL[3] == '\'' && SPECIAL[4] == '"';
    assert SPECIAL[5] == '\\' && SPECIAL[6] == '$' && SPECIAL[7] == '`' && SPECIAL[8] == '*' && SPECIAL[9] == '?';
    assert SPECIAL[10] == '[' && SPECIAL[11] == ']' && SPECIAL[12] == '{' && SPECIAL[13] == '}' && SPECIAL[14] == '(';
    assert SPECIAL[15] == ')' && SPECIAL[16] == '<' && SPECIAL[17] == '>' && SPECIAL[18] == '|' && SPECIAL[19] == '&';
    assert SPECIAL[20] == ';' && SPECIAL[21] == '#' && SPECIAL[22] == '~';
  }

  /** An argument is written as it is exactly when it is not empty and has none of
      those characters. */
  lemma BareIff(a: string)
    ensures Quoted(a) == a <==> a != "" && forall i :: 0 <= i < |a| ==> !IsSpecial(a[i])
  {
    hide IsSpecial;
    forall c: char
      ensures c in SPECIAL <==> IsSpecial(c)
    {
      SpecialAre(c);
    }
    EscapeGrows(a);
  }

  lemma {:induction false} EscapeGrows(a: string)
    ensures |Escape(a)| >= |a|
  {
    if a != "" {
      EscapeGrows(a[1..]);
    }
  }

  // ---------------------------------------------------------------- Round trip

  /** Between words: nothing is open. */
  predicate Idle(st: State) {
    st.quote.NoQuote? && !st.escaped && !st.inWord && st.word == ""
  }

  lemma ScanOne(st: State, c: char, rest: string)
    requires !st.quote.Double?
    ensures Scan(st, [c] + rest) == Scan(Step(st, c), rest)
  {
    assert ([c] + rest)[1..] == rest;
  }

  lemma {:induction false} ScanPlain(st: State, a: string, rest: string)
    requires st.quote.NoQuote? && !st.escaped && forall i :: 0 <= i < |a| ==> a[i] !in SPECIAL
    ensures Scan(st, a + rest) == Scan(st.(word := st.word + a, inWord := st.inWord || a != ""), rest)
    decreases |a|
  {
    if a == "" {
      assert a + rest == rest && st.word + a == st.word;
    } else {
      hide Scan;
      assert a + rest == [a[0]] + (a[1..] + rest);
      ScanOne(st, a[0], a[1..] + rest);
      NotSpecial(a[0]);
      ScanPlain(Step(st, a[0]), a[1..], rest);
      assert st.word + [a[0]] + a[1..] == st.word + a;
    }
  }

  lemma NotSpecial(c: char)
    requires c !in SPECIAL
    ensures c != '\\' && c != '\'' && c != '"' && !IsBlank(c)
  {
    assert SPECIAL[0] == ' ' && SPECIAL[1] == '\t' && SPECIAL[2] == '\n';
    assert SPECIAL[3] == '\'' && SPECIAL[4] == '"' && SPECIAL[5] == '\\';
  }

  /** A quote leaves the single quotes, is escaped, and comes back into them. */
  lemma ScanEscapedQuote(st: State, tail: string)
    requires st.quote.Single? && !st.escaped && st.inWord
    ensures Scan(st, ['\''] + (['\\'] + (['\''] + (['\''] + tail)))) == Scan(st.(word := st.word + ['\'']), tail)
  {
    hide Scan;
    ScanOne(st, '\'', ['\\'] + (['\''] + (['\''] + tail)));
    var st1 := Step(st, '\'');
    ScanOne(st1, '\\', ['\''] + (['\''] + tail));
    var st2 := Step(st1, '\\');
    ScanOne(st2, '\'', ['\''] + tail);
    ScanOne(Step(st2, '\''), '\'', tail);
  }

  lemma {:induction false} ScanEscaped(st: State, a: string, rest: string)
    requires st.quote.Single? && !st.escaped && st.inWord
    ensures Scan(st, Escape(a) + rest) == Scan(st.(word := st.word + a), rest)
    decreases |a|
  {
    hide Scan, Escape, Step;
    EscapeStep(a, rest);
    if a == "" {
      assert st.word + a == st.word;
    } else {
      var tail := Escape(a[1..]) + rest;
      if a[0] == '\'' {
        ScanEscapedQuote(st, tail);
      } else {
        ScanOne(st, a[0], tail);
        StepInside(st, a[0]);
      }
      ScanEscaped(st.(word := st.word + [a[0]]), a[1..], rest);
      assert st.word + [a[0]] + a[1..] == st.word + a;
    }
  }

  lemma EscapeStep(a: string, rest: string)
    ensures a == "" ==> Escape(a) + rest == rest
    ensures a != "" && a[0] != '\'' ==> Escape(a) + rest == [a[0]] + (Escape(a[1..]) + rest)
    ensures a != "" && a[0] == '\'' ==>
              Escape(a) + rest == ['\''] + (['\\'] + (['\''] + (['\''] + (Escape(a[1..]) + rest))))
  {
    if a != "" {
      EscapeFirst(a);
      hide Escape;
      FourMore(Escape(a[1..]), rest);
      assert [a[0]] + Escape(a[1..]) + rest == [a[0]] + (Escape(a[1..]) + rest);
    }
  }

  lemma EscapeFirst(a: string)
    requires a != ""
    ensures Escape(a) == (if a[0] == '\'' then "'\\''" else [a[0]]) + Escape(a[1..])
  {
  }

  lemma FourMore(x: string, rest: string)
    ensures "'\\''" + x + rest == ['\''] + (['\\'] + (['\''] + (['\''] + (x + rest))))
  {
  }

  lemma StepInside(st: State, c: char)
    requires st.quote.Single? && !st.escaped && c != '\''
    ensures Step(st, c) == st.(word := st.word + [c])
  {
  }

  lemma ScanInQuotes(st: State, a: string, rest: string)
    requires Idle(st)
    ensures Scan(st, "'" + Escape(a) + "'" + rest) == Scan(st.(word := a, inWord := true), rest)
  {
    hide Scan, Escape;
    var body := Escape(a) + (['\''] + rest);
    assert "'" + Escape(a) + "'" + rest == ['\''] + body;
    ScanOne(st, '\'', body);
    var open := st.(quote := Single, inWord := true);
    ScanEscaped(open, a, ['\''] + rest);
    assert st.word + a == a;
    ScanOne(open.(word := a), '\'', rest);
  }

  lemma ScanQuoted(st: State, a: string, rest: string)
    requires Idle(st)
    ensures Scan(st, Quoted(a) + rest) == Scan(st.(word := a, inWord := true), rest)
  {
    hide Scan, Escape;
    if Plain(a) {
      ScanPlain(st, a, rest);
      assert st.word + a == a;
    } else {
      ScanInQuotes(st, a, rest);
    }
  }

  lemma {:induction false} ScanJoined(args: seq<string>, rest: string)
    requires args != []
    ensures Scan(START, Join(args) + rest) ==
            Scan(State(args[..|args| - 1], args[|args| - 1], true, NoQuote, false), rest)
    decreases |args|
  {
    hide Scan, Quoted;
    var front, last := args[..|args| - 1], args[|args| - 1];
    if front == [] {
      ScanQuoted(START, last, rest);
      assert Join(args) == Quoted(last);
    } else {
      var st := State(front[..|front| - 1], front[|front| - 1], true, NoQuote, false);
      assert Join(args) + rest == Join(front) + ([' '] + (Quoted(last) + rest));
      ScanJoined(front, [' '] + (Quoted(last) + rest));
      ScanOne(st, ' ', Quoted(last) + rest);
      assert front[..|front| - 1] + [front[|front| - 1]] == front;
      ScanQuoted(State(front, "", false, NoQuote, false), last, rest);
    }
  }

  /** What shellJoin writes, splitShellWords reads back, whatever the arguments
      hold: blanks, quotes, backslashes, or nothing at all. */
  lemma SplitUndoesJoin(args: seq<string>)
    ensures Finish(Scan(START, Join(args))) == Ok(args)
  {
    if args != [] {
      ScanJoined(args, "");
      hide Scan, Join;
      ScanNothing(State(args[..|args| - 1], args[|args| - 1], true, NoQuote, false));
      assert Join(args) + "" == Join(args);
      assert args[..|args| - 1] + [args[|args| - 1]] == args;
    }
  }

  lemma ScanNothing(st: State)
    ensures Scan(st, "") == st
  {
  }
}
