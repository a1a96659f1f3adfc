/** The grammar of a session report, and the proof that the parser accepts exactly
    its sentences, with one result for each case in order. */
module QpaGrammar {
  import opened Positions
  import opened Words
  import opened QpaReport

  // ----- the grammar

  datatype Item =
    | Noise(text: string)
    | Timing(texts: seq<string>)
    | ClosedCase(path: string, texts: seq<string>)
    | TerminatedCase(path: string, texts: seq<string>, status: string)

  function Texts(texts: seq<string>): seq<Line> {
    if texts == [] then [] else [Text(texts[0])] + Texts(texts[1..])
  }

  function RenderItem(item: Item): seq<Line> {
    match item
    case Noise(text) => [Text(text)]
    case Timing(texts) => [BeginTiming] + Texts(texts) + [EndTiming]
    case ClosedCase(path, texts) => [BeginCase(Some(path))] + Texts(texts) + [EndCase]
    case TerminatedCase(path, texts, status) => [BeginCase(Some(path))] + Texts(texts) + [TerminateCase(Some(status))]
  }

  function Render(items: seq<Item>): seq<Line> {
    if items == [] then [] else RenderItem(items[0]) + Render(items[1..])
  }

  /** The result of an item, if it is a case; None when its block is illegible. */
  function ItemResults(item: Item, block: BlockParser): Option<seq<CaseResult>> {
    match item
    case Noise(_) => Some([])
    case Timing(_) => Some([])
    case TerminatedCase(path, _, status) => Some([Abrupt(path, status)])
    case ClosedCase(path, texts) =>
      if Closed(path, texts, block).None? then None else Some([Closed(path, texts, block).value])
  }

  /** The results of a list of items, in order. */
  function Results(items: seq<Item>, block: BlockParser): Option<seq<CaseResult>> {
    if items == [] then Some([])
    else
      var first, rest := ItemResults(items[0], block), Results(items[1..], block);
      if first.None? || rest.None? then None else Some(first.value + rest.value)
  }

  predicate NoMarkers(lines: seq<Line>) {
    forall i | 0 <= i < |lines| :: !lines[i].BeginSession? && !lines[i].EndSession?
  }

  /** A report: one session made of items, between lines that are no session
      markers. */
  predicate IsReport(lines: seq<Line>, before: seq<Line>, items: seq<Item>, after: seq<Line>) {
    NoMarkers(before) && NoMarkers(after) && lines == before + [BeginSession] + Render(items) + [EndSession] + after
  }

  // ----- running over rendered items

  lemma {:induction false} RunAppend(m: Machine, a: seq<Line>, b: seq<Line>, block: BlockParser)
    ensures var first := Run(m, a, block);
      Run(m, a + b, block) == if first.Err? then first else Run(first.value, b, block)
    decreases |a|
  {
    hide Step;
    if a == [] {
      assert a + b == b;
    } else {
      assert (a + b)[1..] == a[1..] + b;
      if Step(m, a[0], block).Ok? { RunAppend(Step(m, a[0], block).value, a[1..], b, block); }
    }
  }

  lemma RunOne(m: Machine, line: Line, rest: seq<Line>, block: BlockParser)
    ensures var first := Step(m, line, block);
      Run(m, [line] + rest, block) == if first.Err? then first else Run(first.value, rest, block)
  {
    hide Step;
    assert ([line] + rest)[1..] == rest;
  }

  lemma {:induction false} RunTextsInCase(results: seq<CaseResult>, path: string, seen: seq<string>,
      texts: seq<string>, rest: seq<Line>, block: BlockParser)
    ensures Run(Machine(results, Some(OpenCase(path, seen)), false), Texts(texts) + rest, block) ==
      Run(Machine(results, Some(OpenCase(path, seen + texts)), false), rest, block)
    decreases |texts|
  {
    var m := Machine(results, Some(OpenCase(path, seen)), false);
    if texts == [] {
      assert Texts(texts) + rest == rest && seen + texts == seen;
    } else {
      assert Texts(texts) + rest == [Text(texts[0])] + (Texts(texts[1..]) + rest);
      RunOne(m, Text(texts[0]), Texts(texts[1..]) + rest, block);
      RunTextsInCase(results, path, seen + [texts[0]], texts[1..], rest, block);
      assert seen + [texts[0]] + texts[1..] == seen + texts;
    }
  }

  lemma {:induction false} RunTextsInTiming(results: seq<CaseResult>, texts: seq<string>, rest: seq<Line>,
      block: BlockParser)
    ensures var m := Machine(results, None, true); Run(m, Texts(texts) + rest, block) == Run(m, rest, block)
    decreases |texts|
  {
    if texts == [] {
      assert Texts(texts) + rest == rest;
    } else {
      assert Texts(texts) + rest == [Text(texts[0])] + (Texts(texts[1..]) + rest);
      RunOne(Machine(results, None, true), Text(texts[0]), Texts(texts[1..]) + rest, block);
      RunTextsInTiming(results, texts[1..], rest, block);
    }
  }

  /** An item takes the idle machine back to idle, with the item's result added. */
  lemma RunItem(results: seq<CaseResult>, item: Item, rest: seq<Line>, block: BlockParser)
    ensures var more := ItemResults(item, block);
      Run(Idle(results), RenderItem(item) + rest, block) ==
      if more.None? then Err(BadBlock(item.path)) else Run(Idle(results + more.value), rest, block)
  {
    hide Run, Texts;
    assert results + [] == results;
    match item
    case Noise(text) => RunOne(Idle(results), Text(text), rest, block);
    case Timing(texts) => RunTiming(results, texts, rest, block);
    case ClosedCase(path, texts) => RunCase(results, path, texts, EndCase, rest, block);
    case TerminatedCase(path, texts, status) => RunCase(results, path, texts, TerminateCase(Some(status)), rest, block);
  }

  lemma RunTiming(results: seq<CaseResult>, texts: seq<string>, rest: seq<Line>, block: BlockParser)
    ensures var lines := [BeginTiming] + Texts(texts) + [EndTiming] + rest;
      Run(Idle(results), lines, block) == Run(Idle(results), rest, block)
  {
    hide Run, Texts;
    assert [BeginTiming] + Texts(texts) + [EndTiming] + rest == [BeginTiming] + (Texts(texts) + ([EndTiming] + rest));
    RunOne(Idle(results), BeginTiming, Texts(texts) + ([EndTiming] + rest), block);
    RunTextsInTiming(results, texts, [EndTiming] + rest, block);
    RunOne(Machine(results, None, true), EndTiming, rest, block);
  }

  lemma RunCase(results: seq<CaseResult>, path: string, texts: seq<string>, last: Line, rest: seq<Line>,
      block: BlockParser)
    ensures var m := Machine(results, Some(OpenCase(path, texts)), false);
      Run(Idle(results), [BeginCase(Some(path))] + Texts(texts) + [last] + rest, block) ==
      if Step(m, last, block).Err? then Step(m, last, block) else Run(Step(m, last, block).value, rest, block)
  {
    hide Run, Texts;
    var begin := [BeginCase(Some(path))];
    assert begin + Texts(texts) + [last] + rest == begin + (Texts(texts) + ([last] + rest));
    RunOne(Idle(results), BeginCase(Some(path)), Texts(texts) + ([last] + rest), block);
    RunTextsInCase(results, path, [], texts, [last] + rest, block);
    assert [] + texts == texts;
    RunOne(Machine(results, Some(OpenCase(path, texts)), false), last, rest, block);
  }

  lemma FirstOfItems(item: Item, more: seq<Item>, block: BlockParser)
    ensures Render([item] + more) == RenderItem(item) + Render(more)
    ensures Results([item] + more, block).Some? <==> ItemResults(item, block).Some? && Results(more, block).Some?
    ensures Results([item] + more, block).Some? ==>
      Results([item] + more, block).value == ItemResults(item, block).value + Results(more, block).value
  {
    hide RenderItem, ItemResults;
    assert ([item] + more)[1..] == more;
  }

  lemma NoItems(block: BlockParser)
    ensures Render([]) == [] && Results([], block) == Some([])
  {
  }

  lemma Regroup<T>(a: seq<T>, b: seq<T>, c: seq<T>)
    ensures (a + b) + c == a + (b + c) && a + [] == a
  {
  }

  lemma {:induction false} RunItems(results: seq<CaseResult>, items: seq<Item>, block: BlockParser)
    ensures Results(items, block).Some? ==>
      Run(Idle(results), Render(items), block) == Ok(Idle(results + Results(items, block).value))
    ensures Results(items, block).None? ==> Run(Idle(results), Render(items), block).Err?
    decreases |items|
  {
    hide Run, Results, Render, RenderItem, ItemResults;
    if items == [] {
      NoItems(block);
      RunNothing(Idle(results), block);
      Regroup(results, [], []);
    } else {
      var item, more := items[0], items[1..];
      assert items == [item] + more;
      FirstOfItems(item, more, block);
      RunItem(results, item, Render(more), block);
      if ItemResults(item, block).Some? {
        RunItems(results + ItemResults(item, block).value, more, block);
        if Results(more, block).Some? { Regroup(results, ItemResults(item, block).value, Results(more, block).value); }
      }
    }
  }

  // ----- every accepted run is rendered items

  /** A run inside a timing section that ends idle closes the section first. */
  lemma {:induction false} SplitTiming(results: seq<CaseResult>, lines: seq<Line>, block: BlockParser,
      final: seq<CaseResult>)
    returns (texts: seq<string>, rest: seq<Line>)
    requires NoMarkers(lines) && Run(Machine(results, None, true), lines, block) == Ok(Idle(final))
    ensures lines == Texts(texts) + [EndTiming] + rest && NoMarkers(rest)
    ensures Run(Idle(results), rest, block) == Ok(Idle(final))
    decreases |lines|
  {
    if lines[0].EndTiming? {
      texts, rest := [], lines[1..];
    } else {
      texts, rest := SplitTiming(results, lines[1..], block, final);
      assert lines == [lines[0]] + lines[1..];
      texts := [lines[0].text] + texts;
    }
  }

  /** A run inside a case that ends idle closes or terminates the case first. */
  lemma {:induction false} SplitCase(results: seq<CaseResult>, path: string, seen: seq<string>, lines: seq<Line>,
      block: BlockParser, final: seq<CaseResult>)
    returns (texts: seq<string>, last: Line, rest: seq<Line>)
    requires NoMarkers(lines)
    requires Run(Machine(results, Some(OpenCase(path, seen)), false), lines, block) == Ok(Idle(final))
    ensures lines == Texts(texts) + [last] + rest && NoMarkers(rest)
    ensures last == EndCase || (last.TerminateCase? && last.status.Some?)
    ensures var step := Step(Machine(results, Some(OpenCase(path, seen + texts)), false), last, block);
      step.Ok? && Run(step.value, rest, block) == Ok(Idle(final))
    decreases |lines|
  {
    var m := Machine(results, Some(OpenCase(path, seen)), false);
    if lines[0].EndCase? || lines[0].TerminateCase? {
      texts, last, rest := [], lines[0], lines[1..];
      assert seen + [] == seen;
    } else {
      texts, last, rest := SplitCase(results, path, seen + [lines[0].text], lines[1..], block, final);
      assert lines == [lines[0]] + lines[1..];
      assert seen + [lines[0].text] + texts == seen + ([lines[0].text] + texts);
      texts := [lines[0].text] + texts;
    }
  }

  /** The first item of a run that starts and ends idle. */
  lemma FirstItem(results: seq<CaseResult>, lines: seq<Line>, block: BlockParser, final: seq<CaseResult>)
    returns (item: Item, rest: seq<Line>)
    requires lines != [] && NoMarkers(lines) && Run(Idle(results), lines, block) == Ok(Idle(final))
    ensures lines == RenderItem(item) + rest && NoMarkers(rest) && |rest| < |lines|
    ensures ItemResults(item, block).Some?
    ensures Run(Idle(results + ItemResults(item, block).value), rest, block) == Ok(Idle(final))
  {
    hide Run, Texts;
    assert lines == [lines[0]] + lines[1..];
    RunOne(Idle(results), lines[0], lines[1..], block);
    if lines[0].Text? {
      item, rest := Noise(lines[0].text), lines[1..];
      assert results + [] == results;
    } else if lines[0].BeginTiming? {
      var texts;
      texts, rest := SplitTiming(results, lines[1..], block, final);
      item := Timing(texts);
      assert results + [] == results;
    } else {
      var path, texts, last := lines[0].path.value, [], EndCase;
      texts, last, rest := SplitCase(results, path, [], lines[1..], block, final);
      assert [] + texts == texts;
      item := if last == EndCase then ClosedCase(path, texts) else TerminatedCase(path, texts, last.status.value);
    }
  }

  lemma {:induction false} ItemsOf(results: seq<CaseResult>, lines: seq<Line>, block: BlockParser,
      final: seq<CaseResult>)
    returns (items: seq<Item>)
    requires NoMarkers(lines) && Run(Idle(results), lines, block) == Ok(Idle(final))
    ensures lines == Render(items) && Results(items, block).Some? && final == results + Results(items, block).value
    decreases |lines|
  {
    hide Run, Results, Render, RenderItem, ItemResults;
    if lines == [] {
      items := [];
      NoItems(block);
      Regroup(results, [], []);
      RunNothing(Idle(results), block);
    } else {
      var item, rest := FirstItem(results, lines, block, final);
      var more := ItemsOf(results + ItemResults(item, block).value, rest, block, final);
      items := [item] + more;
      FirstOfItems(item, more, block);
      Regroup(results, ItemResults(item, block).value, Results(more, block).value);
    }
  }

  lemma RunNothing(m: Machine, block: BlockParser)
    ensures Run(m, [], block) == Ok(m)
  {
  }

  // ----- whole reports

  lemma {:induction false} TextsHaveNoMarkers(texts: seq<string>)
    ensures NoMarkers(Texts(texts))
    decreases |texts|
  {
    if texts != [] { TextsHaveNoMarkers(texts[1..]); }
  }

  lemma {:induction false} RenderHasNoMarkers(items: seq<Item>)
    ensures NoMarkers(Render(items))
    decreases |items|
  {
    if items != [] {
      RenderHasNoMarkers(items[1..]);
      if !items[0].Noise? { TextsHaveNoMarkers(items[0].texts); }
    }
  }

  lemma ReportHasOneSession(lines: seq<Line>, before: seq<Line>, middle: seq<Line>, after: seq<Line>)
    requires NoMarkers(before) && NoMarkers(middle) && NoMarkers(after)
    requires lines == before + [BeginSession] + middle + [EndSession] + after
    ensures Only(lines, IsBegin(), |before|) && Only(lines, IsEnd(), |before| + 1 + |middle|)
    ensures lines[|before| + 1..|before| + 1 + |middle|] == middle
  {
    var b, e := |before|, |before| + 1 + |middle|;
    forall i | 0 <= i < |lines| ensures (lines[i].BeginSession? <==> i == b) && (lines[i].EndSession? <==> i == e) {
      if i < b { assert lines[i] == before[i]; }
      else if b < i < e { assert lines[i] == middle[i - b - 1]; }
      else if i > e { assert lines[i] == after[i - e - 1]; }
    }
  }

  /** Parsing a rendered report gives its results back. */
  lemma ReportIsParsed(lines: seq<Line>, before: seq<Line>, items: seq<Item>, after: seq<Line>, block: BlockParser)
    requires IsReport(lines, before, items, after)
    ensures Results(items, block).Some? ==> Parsed(lines, block) == Ok(Results(items, block).value)
    ensures Results(items, block).None? ==> Parsed(lines, block).Err?
  {
    hide Run, Results, Render, Places, Only;
    RenderHasNoMarkers(items);
    ReportHasOneSession(lines, before, Render(items), after);
    PlacesOfOnly(lines, IsBegin(), |before|, |lines|);
    PlacesOfOnly(lines, IsEnd(), |before| + 1 + |Render(items)|, |lines|);
    RunItems([], items, block);
    if Results(items, block).Some? { assert [] + Results(items, block).value == Results(items, block).value; }
  }

  lemma CutAtMarkers(lines: seq<Line>, b: nat, e: nat)
    requires Only(lines, IsBegin(), b) && Only(lines, IsEnd(), e) && b < e
    ensures NoMarkers(lines[..b]) && NoMarkers(lines[b + 1..e]) && NoMarkers(lines[e + 1..])
    ensures lines == lines[..b] + [BeginSession] + lines[b + 1..e] + [EndSession] + lines[e + 1..]
  {
    assert lines[b] == BeginSession && lines[e] == EndSession by {
      assert IsBegin()(lines[b]) && IsEnd()(lines[e]);
    }
    assert forall i | 0 <= i < |lines| :: (IsBegin()(lines[i]) ==> i == b) && (IsEnd()(lines[i]) ==> i == e);
    assert lines == lines[..b] + [lines[b]] + lines[b + 1..e] + [lines[e]] + lines[e + 1..];
  }

  /** Whatever the parser accepts is a report, and its result is the results of the
      report's items in order. */
  lemma ParsedIsReport(lines: seq<Line>, block: BlockParser)
    returns (before: seq<Line>, items: seq<Item>, after: seq<Line>)
    requires Parsed(lines, block).Ok?
    ensures IsReport(lines, before, items, after) && Results(items, block) == Some(Parsed(lines, block).value)
  {
    hide Run, Results, Render, Places, Only;
    OnePlace(lines, IsBegin());
    OnePlace(lines, IsEnd());
    var b, e := Places(lines, IsBegin(), |lines|)[0], Places(lines, IsEnd(), |lines|)[0];
    PlacesAre(lines, IsBegin(), |lines|);
    PlacesAre(lines, IsEnd(), |lines|);
    OneKind(lines, b, e);
    CutAtMarkers(lines, b, e);
    before, after := lines[..b], lines[e + 1..];
    var final := Parsed(lines, block).value;
    items := ItemsOf([], lines[b + 1..e], block, final);
    assert [] + Results(items, block).value == Results(items, block).value;
  }

  /** The parser accepts exactly the reports whose closed blocks are all legible. */
  lemma ParsedIffReport(lines: seq<Line>, block: BlockParser, results: seq<CaseResult>)
    ensures Parsed(lines, block) == Ok(results) <==>
      exists before, items, after :: IsReport(lines, before, items, after) && Results(items, block) == Some(results)
  {
    hide Parsed, IsReport, Results;
    if Parsed(lines, block) == Ok(results) {
      var before, items, after := ParsedIsReport(lines, block);
      assert IsReport(lines, before, items, after);
    }
    if exists before, items, after :: IsReport(lines, before, items, after) && Results(items, block) == Some(results) {
      var before, items, after :| IsReport(lines, before, items, after) && Results(items, block) == Some(results);
      ReportIsParsed(lines, before, items, after, block);
    }
  }

  // ----- one result for each case

  /** The paths of the begin markers, in order. */
  function BeginPaths(lines: seq<Line>): seq<string> {
    if lines == [] then []
    else (if lines[0].BeginCase? && lines[0].path.Some? then [lines[0].path.value] else []) + BeginPaths(lines[1..])
  }

  function Paths(results: seq<CaseResult>): seq<string> {
    if results == [] then [] else [results[0].path] + Paths(results[1..])
  }

  lemma {:induction false} BeginPathsAppend(a: seq<Line>, b: seq<Line>)
    ensures BeginPaths(a + b) == BeginPaths(a) + BeginPaths(b)
    decreases |a|
  {
    if a == [] {
      assert a + b == b;
    } else {
      BeginPathsAppend(a[1..], b);
      assert (a + b)[1..] == a[1..] + b;
    }
  }

  lemma {:induction false} TextsBeginNothing(texts: seq<string>)
    ensures BeginPaths(Texts(texts)) == []
    decreases |texts|
  {
    if texts != [] {
      TextsBeginNothing(texts[1..]);
      assert Texts(texts)[1..] == Texts(texts[1..]);
    }
  }

  lemma ItemBegins(item: Item, block: BlockParser)
    requires ItemResults(item, block).Some?
    ensures BeginPaths(RenderItem(item)) == Paths(ItemResults(item, block).value)
  {
    if !item.Noise? {
      var first := if item.Timing? then BeginTiming else BeginCase(Some(item.path));
      var last :=
        if item.Timing? then EndTiming else if item.ClosedCase? then EndCase else TerminateCase(Some(item.status));
      BeginPathsAppend([first] + Texts(item.texts), [last]);
      BeginPathsAppend([first], Texts(item.texts));
      TextsBeginNothing(item.texts);
    }
  }

  /** There is one result for each begin marker of the session, in order. */
  lemma {:induction false} OneResultPerCase(items: seq<Item>, block: BlockParser)
    requires Results(items, block).Some?
    ensures Paths(Results(items, block).value) == BeginPaths(Render(items))
    decreases |items|
  {
    hide ItemResults, RenderItem;
    if items != [] {
      var first, rest := ItemResults(items[0], block).value, Results(items[1..], block).value;
      OneResultPerCase(items[1..], block);
      ItemBegins(items[0], block);
      BeginPathsAppend(RenderItem(items[0]), Render(items[1..]));
      PathsAppend(first, rest);
    }
  }

  lemma {:induction false} PathsAppend(a: seq<CaseResult>, b: seq<CaseResult>)
    ensures Paths(a + b) == Paths(a) + Paths(b)
    decreases |a|
  {
    if a == [] {
      assert a + b == b;
    } else {
      PathsAppend(a[1..], b);
      assert (a + b)[1..] == a[1..] + b;
    }
  }
}
