/** What a command line means, said by its grammar and not by a scanner: section
    2.2 of the POSIX.1-2017 Shell Command Language, without expansions. The
    splitter accepts exactly the lines of this grammar, and gives their words. */
module ShellGrammar {
  import opened Wrappers
  import opened ShellWords

  /** A character between double quotes, on its own or escaped. */
  datatype Item = Raw(c: char) | Kept(c: char)

  datatype Element =
    | Blank(c: char)
    | Bare(c: char)
    | Escaped(c: char)
    | SingleQuoted(text: string)
    | DoubleQuoted(items: seq<Item>)

  // ---------------------------------------------------------------- The grammar

  function PrintItem(x: Item): string {
    match x
    case Raw(c) => [c]
    case Kept(c) => ['\\', c]
  }

  function PrintItems(items: seq<Item>): string {
    if items == [] then "" else PrintItem(items[0]) + PrintItems(items[1..])
  }

  function ItemsText(items: seq<Item>): string {
    if items == [] then "" else [items[0].c] + ItemsText(items[1..])
  }

  /** Whether an item may come before what follows, which a closing quote ends: a
      backslash stands for itself only before what it does not escape. */
  predicate ValidItem(x: Item, tail: string)
    requires tail != ""
  {
    match x
    case Kept(c) => EscapedInDouble(c)
    case Raw(c) => c != '"' && (c == '\\' ==> !EscapedInDouble(tail[0]))
  }

  predicate ValidItems(items: seq<Item>) {
    items == [] || (ValidItems(items[1..]) && ValidItem(items[0], PrintItems(items[1..]) + "\""))
  }

  predicate ValidElement(e: Element) {
    match e
    case Blank(c) => IsBlank(c)
    case Bare(c) => !IsBlank(c) && c != '\\' && c != '\'' && c != '"'
    case Escaped(_) => true
    case SingleQuoted(text) => '\'' !in text
    case DoubleQuoted(items) => ValidItems(items)
  }

  predicate ValidLine(line: seq<Element>) {
    forall i :: 0 <= i < |line| ==> ValidElement(line[i])
  }

  function PrintElement(e: Element): string {
    match e
    case Blank(c) => [c]
    case Bare(c) => [c]
    case Escaped(c) => ['\\', c]
    case SingleQuoted(text) => "'" + text + "'"
    case DoubleQuoted(items) => "\"" + PrintItems(items) + "\""
  }

  function PrintLine(line: seq<Element>): string {
    if line == [] then "" else PrintElement(line[0]) + PrintLine(line[1..])
  }

  function Text(e: Element): string {
    match e
    case Blank(_) => ""
    case Bare(c) => [c]
    case Escaped(c) => [c]
    case SingleQuoted(text) => text
    case DoubleQuoted(items) => ItemsText(items)
  }

  predicate StartsWord(line: seq<Element>) {
    line != [] && !line[0].Blank?
  }

  /** Elements next to one another, with no blank between, are one word. */
  function Words(line: seq<Element>): (words: seq<string>)
    ensures StartsWord(line) ==> words != []
  {
    if line == [] then []
    else if line[0].Blank? then Words(line[1..])
    else if StartsWord(line[1..]) then [Text(line[0]) + Words(line[1..])[0]] + Words(line[1..])[1..]
    else [Text(line[0])] + Words(line[1..])
  }

  // ---------------------------------------------------------------- Reading a line

  /** Nothing is open, and there is no word text without a word. */
  predicate Between(st: State) {
    st.quote.NoQuote? && !st.escaped && (!st.inWord ==> st.word == "")
  }

  function After(st: State, e: Element): State {
    if !e.Blank? then st.(word := st.word + Text(e), inWord := true)
    else if st.inWord then st.(args := st.args + [st.word], word := "", inWord := false)
    else st
  }

  lemma {:induction false} ScanSingle(st: State, text: string, rest: string)
    requires st.quote.Single? && !st.escaped && '\'' !in text
    ensures Scan(st, text + "'" + rest) == Scan(st.(word := st.word + text, quote := NoQuote), rest)
    decreases |text|
  {
    if text == "" {
      assert text + "'" + rest == ['\''] + rest && st.word + text == st.word;
      ScanOne(st, '\'', rest);
    } else {
      assert text + "'" + rest == [text[0]] + (text[1..] + "'" + rest);
      ScanOne(st, text[0], text[1..] + "'" + rest);
      ScanSingle(st.(word := st.word + [text[0]]), text[1..], rest);
      assert st.word + [text[0]] + text[1..] == st.word + text;
    }
  }

  lemma ScanRaw(st: State, c: char, rest: string)
    requires st.quote.Double? && !st.escaped && !TakesTwo(st, [c] + rest)
    ensures Scan(st, [c] + rest) == Scan(Step(st, c), rest)
  {
    assert ([c] + rest)[1..] == rest;
  }

  lemma ScanKept(st: State, c: char, rest: string)
    requires st.quote.Double? && !st.escaped && EscapedInDouble(c)
    ensures Scan(st, ['\\', c] + rest) == Scan(st.(word := st.word + [c]), rest)
  {
    assert (['\\', c] + rest)[2..] == rest;
    assert TakesTwo(st, ['\\', c] + rest);
  }

  lemma ScanItem(st: State, x: Item, tail: string)
    requires st.quote.Double? && !st.escaped && tail != "" && ValidItem(x, tail)
    ensures Scan(st, PrintItem(x) + tail) == Scan(st.(word := st.word + [x.c]), tail)
  {
    if x.Kept? {
      ScanKept(st, x.c, tail);
    } else {
      assert ([x.c] + tail)[1] == tail[0];
      ScanRaw(st, x.c, tail);
    }
  }

  lemma ItemsStep(items: seq<Item>, rest: string, word: string)
    requires items != [] && ValidItems(items)
    ensures var tail := PrintItems(items[1..]) + "\"" + rest;
            && PrintItems(items) + "\"" + rest == PrintItem(items[0]) + tail
            && tail != "" && ValidItem(items[0], tail) && ValidItems(items[1..])
    ensures word + ItemsText(items) == word + [items[0].c] + ItemsText(items[1..])
  {
    ItemsUnfold(items);
    hide PrintItems, ItemsText, ValidItems, PrintItem, ValidItem;
    var more := PrintItems(items[1..]);
    Associate(PrintItem(items[0]), more, "\"", rest);
    ValidBefore(items[0], more + "\"", rest);
    assert word + ([items[0].c] + ItemsText(items[1..])) == word + [items[0].c] + ItemsText(items[1..]);
  }

  lemma ValidBefore(x: Item, a: string, b: string)
    requires a != "" && ValidItem(x, a)
    ensures ValidItem(x, a + b)
  {
  }

  lemma ItemsUnfold(items: seq<Item>)
    requires items != [] && ValidItems(items)
    ensures PrintItems(items) == PrintItem(items[0]) + PrintItems(items[1..])
    ensures ItemsText(items) == [items[0].c] + ItemsText(items[1..])
    ensures ValidItems(items[1..]) && ValidItem(items[0], PrintItems(items[1..]) + "\"")
  {
    hide PrintItem, ValidItem;
  }

  lemma Associate(a: string, b: string, c: string, d: string)
    ensures a + b + c + d == a + (b + c + d)
  {
  }

  lemma ItemsEnd(st: State, rest: string)
    requires st.quote.Double? && !st.escaped
    ensures Scan(st, PrintItems([]) + "\"" + rest) == Scan(st.(word := st.word + ItemsText([]), quote := NoQuote), rest)
  {
    hide Scan;
    assert PrintItems([]) + "\"" + rest == ['"'] + rest && st.word + ItemsText([]) == st.word;
    ScanRaw(st, '"', rest);
  }

  lemma {:induction false} ScanItems(st: State, items: seq<Item>, rest: string)
    requires st.quote.Double? && !st.escaped && ValidItems(items)
    ensures Scan(st, PrintItems(items) + "\"" + rest) ==
            Scan(st.(word := st.word + ItemsText(items), quote := NoQuote), rest)
    decreases |items|
  {
    hide Scan, PrintItems, ItemsText, ValidItems, ValidItem;
    if items == [] {
      ItemsEnd(st, rest);
    } else {
      ItemsStep(items, rest, st.word);
      ScanItem(st, items[0], PrintItems(items[1..]) + "\"" + rest);
      ScanItems(st.(word := st.word + [items[0].c]), items[1..], rest);
    }
  }

  lemma ScanElement(st: State, e: Element, rest: string)
    requires Between(st) && ValidElement(e)
    ensures Scan(st, PrintElement(e) + rest) == Scan(After(st, e), rest) && Between(After(st, e))
  {
    hide Scan, PrintItems, ItemsText, ValidItems;
    match e
    case Blank(c) => ScanOne(st, c, rest);
    case Bare(c) => ScanOne(st, c, rest);
    case Escaped(c) =>
      assert PrintElement(e) + rest == ['\\'] + ([c] + rest);
      ScanOne(st, '\\', [c] + rest);
      ScanOne(Step(st, '\\'), c, rest);
    case SingleQuoted(text) =>
      assert PrintElement(e) + rest == ['\''] + (text + "'" + rest);
      ScanOne(st, '\'', text + "'" + rest);
      ScanSingle(Step(st, '\''), text, rest);
    case DoubleQuoted(items) =>
      assert PrintElement(e) + rest == ['"'] + (PrintItems(items) + "\"" + rest);
      ScanOne(st, '"', PrintItems(items) + "\"" + rest);
      ScanItems(Step(st, '"'), items, rest);
  }

  /** The words a state has, and those of what is left of the line. */
  function Collected(st: State, line: seq<Element>): seq<string> {
    st.args +
    if !st.inWord then Words(line)
    else if StartsWord(line) then [st.word + Words(line)[0]] + Words(line)[1..]
    else [st.word] + Words(line)
  }

  lemma CollectOne(st: State, line: seq<Element>)
    requires Between(st) && line != []
    ensures Collected(After(st, line[0]), line[1..]) == Collected(st, line)
  {
    var e, rest := line[0], line[1..];
    if e.Blank? {
      assert !StartsWord(line) && Words(line) == Words(rest);
    } else if StartsWord(rest) {
      assert Words(line) == [Text(e) + Words(rest)[0]] + Words(rest)[1..];
      assert st.word + Text(e) + Words(rest)[0] == st.word + (Text(e) + Words(rest)[0]);
      assert "" + Text(e) == Text(e);
    } else {
      assert Words(line) == [Text(e)] + Words(rest);
      assert "" + Text(e) == Text(e);
    }
  }

  function AfterAll(st: State, line: seq<Element>): State
    decreases |line|
  {
    if line == [] then st else AfterAll(After(st, line[0]), line[1..])
  }

  lemma {:induction false} ScanLine(st: State, line: seq<Element>, rest: string)
    requires Between(st) && ValidLine(line)
    ensures Scan(st, PrintLine(line) + rest) == Scan(AfterAll(st, line), rest) && Between(AfterAll(st, line))
    ensures Finish(AfterAll(st, line)) == Ok(Collected(st, line))
    decreases |line|
  {
    if line == [] {
      assert PrintLine(line) + rest == rest;
      assert st.args + [] == st.args && [st.word] + [] == [st.word];
    } else {
      hide Scan, Collected;
      var more := PrintLine(line[1..]);
      assert PrintLine(line) + rest == PrintElement(line[0]) + (more + rest);
      ScanElement(st, line[0], more + rest);
      ScanLine(After(st, line[0]), line[1..], rest);
      CollectOne(st, line);
    }
  }

  // ---------------------------------------------------------------- An unfinished line

  /** How a text may end after its last whole element. */
  datatype Tail = Whole | Backslash | InSingle(text: string) | InDouble(items: seq<Item>)

  /** As ValidItems, with the text ending where the closing quote would be. */
  predicate ValidOpen(items: seq<Item>) {
    items == [] ||
    (&& ValidOpen(items[1..])
     && match items[0]
        case Kept(c) => EscapedInDouble(c)
        case Raw(c) =>
          c != '"' && (c == '\\' && PrintItems(items[1..]) != "" ==> !EscapedInDouble(PrintItems(items[1..])[0])))
  }

  predicate ValidTail(tail: Tail) {
    match tail
    case InSingle(text) => '\'' !in text
    case InDouble(items) => ValidOpen(items)
    case _ => true
  }

  function PrintTail(tail: Tail): string {
    match tail
    case Whole => ""
    case Backslash => "\\"
    case InSingle(text) => "'" + text
    case InDouble(items) => "\"" + PrintItems(items)
  }

  /** What a text so ending is split into, or why it is not. */
  function Outcome(line: seq<Element>, tail: Tail): Result<seq<string>, Error> {
    match tail
    case Whole => Ok(Words(line))
    case Backslash => Err(TrailingBackslash)
    case InSingle(_) => Err(Unterminated(Single))
    case InDouble(_) => Err(Unterminated(Double))
  }

  lemma {:induction false} ScanOpenSingle(st: State, text: string)
    requires st.quote.Single? && !st.escaped && '\'' !in text
    ensures Scan(st, text).quote.Single?
    decreases |text|
  {
    if text != "" {
      ScanOpenSingle(Step(st, text[0]), text[1..]);
    }
  }

  lemma {:induction false} ScanOpenItems(st: State, items: seq<Item>)
    requires st.quote.Double? && !st.escaped && ValidOpen(items)
    ensures Scan(st, PrintItems(items)).quote.Double?
    decreases |items|
  {
    if items != [] {
      var c, more := items[0].c, PrintItems(items[1..]);
      assert PrintItems(items) == PrintItem(items[0]) + more;
      hide Scan;
      if items[0].Kept? {
        ScanKept(st, c, more);
      } else {
        ScanRaw(st, c, more);
      }
      ScanOpenItems(st.(word := st.word + [c]), items[1..]);
    } else {
      ScanNothing(st);
    }
  }

  lemma ScanTail(st: State, tail: Tail)
    requires Between(st) && ValidTail(tail) && !tail.Whole?
    ensures Finish(Scan(st, PrintTail(tail))) == Outcome([], tail)
  {
    hide Scan, PrintItems, ValidOpen;
    match tail
    case Backslash =>
      assert PrintTail(tail) == ['\\'] + "";
      ScanOne(st, '\\', "");
      ScanNothing(Step(st, '\\'));
    case InSingle(text) =>
      ScanOne(st, '\'', text);
      ScanOpenSingle(Step(st, '\''), text);
    case InDouble(items) =>
      ScanOne(st, '"', PrintItems(items));
      ScanOpenItems(Step(st, '"'), items);
  }

  // ---------------------------------------------------------------- Reading any text

  /** Up to the closing quote, or the end. */
  lemma {:induction false} FindSingle(s: string) returns (text: string, closed: bool, rest: string)
    ensures '\'' !in text && s == text + (if closed then "'" + rest else "")
    ensures |rest| <= |s|
    decreases |s|
  {
    if s == "" {
      text, closed, rest := "", false, "";
    } else if s[0] == '\'' {
      text, closed, rest := "", true, s[1..];
    } else {
      text, closed, rest := FindSingle(s[1..]);
      assert s == [s[0]] + s[1..];
      text := [s[0]] + text;
    }
  }

  lemma {:induction false} FindItems(s: string) returns (items: seq<Item>, closed: bool, rest: string)
    ensures s == PrintItems(items) + (if closed then "\"" + rest else "")
    ensures if closed then ValidItems(items) else ValidOpen(items)
    ensures |rest| <= |s|
    decreases |s|
  {
    if s == "" {
      items, closed, rest := [], false, "";
    } else if s[0] == '"' {
      items, closed, rest := [], true, s[1..];
    } else {
      var x := if s[0] == '\\' && |s| > 1 && EscapedInDouble(s[1]) then Kept(s[1]) else Raw(s[0]);
      var more := s[|PrintItem(x)|..];
      items, closed, rest := FindItems(more);
      FoundItem(s, x, items, closed, rest);
      items := [x] + items;
    }
  }

  lemma FoundItem(s: string, x: Item, items: seq<Item>, closed: bool, rest: string)
    requires s != "" && s[0] != '"'
    requires x == if s[0] == '\\' && |s| > 1 && EscapedInDouble(s[1]) then Kept(s[1]) else Raw(s[0])
    requires s[|PrintItem(x)|..] == PrintItems(items) + (if closed then "\"" + rest else "")
    requires if closed then ValidItems(items) else ValidOpen(items)
    ensures s == PrintItems([x] + items) + (if closed then "\"" + rest else "")
    ensures if closed then ValidItems([x] + items) else ValidOpen([x] + items)
  {
    ItemsCons(x, items);
    assert s == PrintItem(x) + s[|PrintItem(x)|..];
    if x.Raw? && |s| > 1 {
      assert s[1..][0] == s[1];
    }
  }

  lemma ItemsCons(x: Item, items: seq<Item>)
    ensures ([x] + items)[1..] == items && PrintItems([x] + items) == PrintItem(x) + PrintItems(items)
  {
    assert ([x] + items)[1..] == items;
  }

  /** A text that is not empty starts with an element, or is an unfinished one. */
  lemma FindElement(s: string) returns (line: seq<Element>, tail: Tail, rest: string)
    requires s != ""
    ensures |line| <= 1 && ValidLine(line) && ValidTail(tail) && |rest| < |s|
    ensures if line == [] then s == PrintTail(tail) && !tail.Whole? else s == PrintElement(line[0]) + rest
  {
    hide ValidItems, ValidOpen, PrintItems;
    assert s == [s[0]] + s[1..];
    line, tail, rest := [], Whole, s[1..];
    if s[0] == '\\' {
      if s[1..] == "" {
        tail := Backslash;
      } else {
        line, rest := [Escaped(s[1])], s[2..];
      }
    } else if s[0] == '\'' {
      var text, closed, after := FindSingle(s[1..]);
      if closed {
        line, rest := [SingleQuoted(text)], after;
      } else {
        tail := InSingle(text);
        assert text + "" == text;
      }
    } else if s[0] == '"' {
      var items, closed, after := FindItems(s[1..]);
      if closed {
        line, rest := [DoubleQuoted(items)], after;
      } else {
        tail := InDouble(items);
        assert PrintItems(items) + "" == PrintItems(items);
      }
    } else {
      line := [if IsBlank(s[0]) then Blank(s[0]) else Bare(s[0])];
    }
  }

  /** Every text is a line of the grammar, or one with an unfinished end. */
  lemma {:induction false} FindLine(s: string) returns (line: seq<Element>, tail: Tail)
    ensures ValidLine(line) && ValidTail(tail) && s == PrintLine(line) + PrintTail(tail)
    decreases |s|
  {
    if s == "" {
      line, tail := [], Whole;
    } else {
      var first, end, rest := FindElement(s);
      if first == [] {
        line, tail := [], end;
        assert PrintLine(line) + PrintTail(tail) == PrintTail(tail);
      } else {
        var more;
        more, tail := FindLine(rest);
        line := first + more;
        assert line[1..] == more;
        assert s == PrintElement(first[0]) + (PrintLine(more) + PrintTail(tail));
      }
    }
  }

  // ---------------------------------------------------------------- The result

  /** Splitting gives a line's words, and of an unfinished line says what is
      unfinished. */
  lemma SplitGivesOutcome(line: seq<Element>, tail: Tail)
    requires ValidLine(line) && ValidTail(tail)
    ensures Finish(Scan(START, PrintLine(line) + PrintTail(tail))) == Outcome(line, tail)
  {
    hide Scan, ValidTail, AfterAll, PrintLine;
    ScanLine(START, line, PrintTail(tail));
    assert Collected(START, line) == Words(line);
    if tail.Whole? {
      ScanNothing(AfterAll(START, line));
    } else {
      ScanTail(AfterAll(START, line), tail);
    }
  }

  /** The line is a command line of the grammar, and these are its words. */
  ghost predicate IsLine(s: string, words: seq<string>) {
    exists line :: ValidLine(line) && PrintLine(line) == s && Words(line) == words
  }

  /** The splitter gives the words of every line of the grammar, and refuses
      everything else. */
  lemma SplitIsGrammar(s: string, words: seq<string>)
    ensures Finish(Scan(START, s)) == Ok(words) <==> IsLine(s, words)
  {
    hide Scan, PrintLine, ValidLine, Words;
    var line, tail := FindLine(s);
    SplitGivesOutcome(line, tail);
    assert PrintLine(line) + "" == PrintLine(line);
    if IsLine(s, words) {
      var l :| ValidLine(l) && PrintLine(l) == s && Words(l) == words;
      assert PrintLine(l) + "" == PrintLine(l);
      SplitGivesOutcome(l, Whole);
    }
  }
}
