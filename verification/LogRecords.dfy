/** Reading a log stream back: its lines, and the fields of a record. */
module LogRecords {
  import opened LogFormat
  import opened Words

  // ----- cutting at a character

  function Before(s: string, c: char): (front: string)
    ensures c !in front && |front| <= |s|
  {
    if s == [] || s[0] == c then [] else [s[0]] + Before(s[1..], c)
  }

  function After(s: string, c: char): (back: string)
    ensures c in s ==> |Before(s, c)| + 1 + |back| == |s|
  {
    if s == [] then [] else if s[0] == c then s[1..] else After(s[1..], c)
  }

  lemma {:induction false} CutAt(a: string, c: char, b: string)
    requires c !in a
    ensures Before(a + [c] + b, c) == a && After(a + [c] + b, c) == b
    decreases |a|
  {
    var s := a + [c] + b;
    if a == [] {
      assert s[0] == c && s[1..] == b;
    } else {
      assert s[0] == a[0] && s[1..] == a[1..] + [c] + b;
      CutAt(a[1..], c, b);
    }
  }

  // ----- numbers

  function Value(c: char): Option<nat> { if '0' <= c <= '9' then Some(c as nat - '0' as nat) else None }

  function ParseDecimal(s: string): Option<nat> {
    if s == [] || Value(s[|s| - 1]).None? then None
    else if |s| == 1 then Value(s[0])
    else
      var front := ParseDecimal(s[..|s| - 1]);
      if front.None? then None else Some(10 * front.value + Value(s[|s| - 1]).value)
  }

  lemma {:induction false} DecimalParses(n: nat)
    ensures ParseDecimal(Decimal(n)) == Some(n)
  {
    if n >= 10 {
      DecimalParses(n / 10);
      assert Decimal(n)[..|Decimal(n)| - 1] == Decimal(n / 10);
    }
  }

  /** The formatter's digits are the shortest ones. */
  lemma {:induction false} ParsedIsLong(s: string)
    requires ParseDecimal(s).Some?
    ensures |s| >= |Decimal(ParseDecimal(s).value)|
    decreases |s|
  {
    var n := ParseDecimal(s).value;
    if |s| > 1 && n >= 10 {
      ParsedIsLong(s[..|s| - 1]);
      assert n / 10 == ParseDecimal(s[..|s| - 1]).value;
    }
  }

  // ----- records

  datatype Record = Record(number: nat, time: nat, level: string, text: string)

  /** The record a line announces, its newline taken off. */
  function ParseRecord(body: string): Option<Record> {
    if '\t' !in body then None
    else
      var number, rest := ParseDecimal(Before(body, '\t')), After(body, '\t');
      if number.None? || '\t' !in rest then None
      else
        var time, rest' := ParseDecimal(Before(rest, '\t')), After(rest, '\t');
        if time.None? || '\t' !in rest' then None
        else Some(Record(number.value, time.value, Before(rest', '\t'), After(rest', '\t')))
  }

  /** What a record of these fields says once its level and text are clean. */
  function Cleaned(number: nat, time: nat, level: string, text: string): Record {
    Record(number, time, CleanAll(if level == "" then INFO else level, false), CleanAll(text, true))
  }

  lemma {:induction false} CleanHolds(s: string, allowTab: bool)
    ensures '\n' !in CleanAll(s, allowTab) && '\r' !in CleanAll(s, allowTab)
    ensures !allowTab ==> '\t' !in CleanAll(s, allowTab) && ' ' !in CleanAll(s, allowTab)
    ensures |CleanAll(s, allowTab)| == |s|
    decreases |s|
  {
    if s != [] { CleanHolds(s[1..], allowTab); }
  }

  lemma {:induction false} DecimalHolds(n: nat)
    ensures '\t' !in Decimal(n) && '\n' !in Decimal(n)
  {
    if n >= 10 { DecimalHolds(n / 10); }
  }

  lemma {:induction false} HexHolds(n: nat)
    ensures '\n' !in Hex(n)
  {
    if n >= 16 { HexHolds(n / 16); }
  }

  lemma ContentParses(number: nat, time: nat, level: string, text: string)
    ensures ParseRecord(Content(number, time, level, text)) == Some(Cleaned(number, time, level, text))
  {
    hide Decimal, CleanAll, ParseDecimal, Before, After;
    var r := Cleaned(number, time, level, text);
    CleanHolds(if level == "" then INFO else level, false);
    DecimalHolds(number);
    DecimalHolds(time);
    DecimalParses(number);
    DecimalParses(time);
    var third := r.level + ['\t'] + r.text;
    var second := Decimal(time) + ['\t'] + third;
    assert Content(number, time, level, text) == Decimal(number) + ['\t'] + second;
    CutAt(Decimal(number), '\t', second);
    CutAt(Decimal(time), '\t', third);
    CutAt(r.level, '\t', r.text);
  }

  /** A body that announces a record is at least as long as the record's content. */
  lemma RecordTakesRoom(body: string)
    requires ParseRecord(body).Some?
    ensures var r := ParseRecord(body).value;
      |body| >= |Decimal(r.number)| + |Decimal(r.time)| + |r.level| + |r.text| + 3
  {
    hide Decimal, ParseDecimal, Before, After;
    var rest := After(body, '\t');
    ParsedIsLong(Before(body, '\t'));
    ParsedIsLong(Before(rest, '\t'));
  }

  /** The line without its newline. */
  function Body(line: string): string { if line == "" then "" else line[..|line| - 1] }

  /** Round trip: the fields of a record are read back from its line exactly when
      the line was not cut short. */
  lemma RecordRoundTrip(cap: nat, number: nat, time: nat, level: string, text: string)
    requires cap >= 2
    ensures var content := Content(number, time, level, text);
      ParseRecord(Body(LineOf(content, cap))) == Some(Cleaned(number, time, level, text)) <==> |content| + 2 <= cap
  {
    hide Decimal, CleanAll, ParseRecord, ParseDecimal, Content;
    var content, r := Content(number, time, level, text), Cleaned(number, time, level, text);
    var body := Body(LineOf(content, cap));
    ContentParses(number, time, level, text);
    ContentLength(number, time, level, text);
    if |content| + 2 <= cap {
      assert body == content;
    } else {
      assert |body| < |content|;
      if ParseRecord(body).Some? { RecordTakesRoom(body); }
    }
  }

  lemma ContentLength(number: nat, time: nat, level: string, text: string)
    ensures var r := Cleaned(number, time, level, text);
      |Content(number, time, level, text)| == |Decimal(number)| + |Decimal(time)| + |r.level| + |r.text| + 3
  {
  }

  /** However short the buffer, the number of a record survives as long as its
      digits and the tab behind them do. */
  lemma NumberSurvives(cap: nat, number: nat, time: nat, level: string, text: string)
    requires cap >= |Decimal(number)| + 3
    ensures ParseDecimal(Before(Body(LineOf(Content(number, time, level, text), cap)), '\t')) == Some(number)
  {
    hide Decimal, CleanAll, ParseDecimal, Before;
    var content := Content(number, time, level, text);
    var body := Body(LineOf(content, cap));
    var n := |Decimal(number)|;
    DecimalHolds(number);
    DecimalParses(number);
    assert body[..n] == Decimal(number) && body[n] == '\t';
    assert body == Decimal(number) + ['\t'] + body[n + 1..];
    CutAt(Decimal(number), '\t', body[n + 1..]);
  }

  // ----- lines of a stream

  /** One line: exactly one newline, at its end. */
  predicate IsLine(line: string) { line != [] && line[|line| - 1] == '\n' && '\n' !in Body(line) }

  lemma {:induction false} NoNewlines(number: nat, time: nat, level: string, text: string)
    ensures '\n' !in Content(number, time, level, text)
  {
    DecimalHolds(number);
    DecimalHolds(time);
    CleanHolds(if level == "" then INFO else level, false);
    CleanHolds(text, true);
  }

  lemma LineOfIsLine(content: string, cap: nat)
    requires cap >= 2 && '\n' !in content
    ensures IsLine(LineOf(content, cap))
  {
    var cut := if |content| > cap - 2 then content[..cap - 2] else content;
    assert Body(LineOf(content, cap)) == cut;
    assert forall i | 0 <= i < |cut| :: cut[i] == content[i];
  }

  /** A formatted record has exactly one newline, at its end, and stays below the
      capacity. */
  lemma RecordIsOneLine(cap: nat, number: nat, time: nat, level: string, text: string)
    requires cap >= 2
    ensures var line := LineOf(Content(number, time, level, text), cap); IsLine(line) && |line| < cap
  {
    NoNewlines(number, time, level, text);
    LineOfIsLine(Content(number, time, level, text), cap);
  }

  lemma HelloHeadHolds(h: Hello)
    ensures '\n' !in HelloHead(h)
  {
    hide CleanAll, Hex;
    CleanHolds(if h.title == "" then "unknown" else h.title, false);
    CleanHolds(if h.app == "" then "unknown" else h.app, false);
    HexHolds(h.boot);
  }

  lemma HelloIsOneLine(cap: nat, h: Hello, resume: bool, next: nat)
    requires cap >= 2
    ensures IsLine(LineOf(HelloContent(h, resume, next), cap))
  {
    hide Decimal, CleanAll, HelloHead;
    HelloHeadHolds(h);
    CleanHolds(h.tag, false);
    DecimalHolds(next);
    LineOfIsLine(HelloContent(h, resume, next), cap);
  }

  lemma ByeIsOneLine(cap: nat, number: nat, reason: string)
    requires cap >= 2
    ensures IsLine(LineOf(ByeContent(number, reason), cap))
  {
    hide Decimal, CleanAll;
    DecimalHolds(number);
    CleanHolds(if reason == "" then "closed" else reason, false);
    LineOfIsLine(ByeContent(number, reason), cap);
  }

  /** The bodies of the complete lines of a stream. */
  function Lines(s: string): seq<string>
    decreases |s|
  {
    if '\n' !in s then [] else [Before(s, '\n')] + Lines(After(s, '\n'))
  }

  lemma FirstLine(line: string, rest: string)
    requires IsLine(line)
    ensures Lines(line + rest) == [Body(line)] + Lines(rest)
  {
    assert line + rest == Body(line) + ['\n'] + rest;
    CutAt(Body(line), '\n', rest);
  }

  function Bodies(lines: seq<string>): (bodies: seq<string>)
    ensures |bodies| == |lines| && forall i | 0 <= i < |lines| :: bodies[i] == Body(lines[i])
  {
    if lines == [] then []
    else Bodies(lines[..|lines| - 1]) + [Body(lines[|lines| - 1])]
  }

  /** A stream of lines, and what follows them, splits back into those lines. */
  lemma {:induction false} LinesSplitBack(lines: seq<string>, rest: string)
    requires forall i | 0 <= i < |lines| :: IsLine(lines[i])
    ensures Lines(Flatten(lines) + rest) == Bodies(lines) + Lines(rest)
    decreases |lines|
  {
    hide Lines, IsLine, Body;
    if lines == [] {
      assert Flatten(lines) + rest == rest;
    } else {
      var front, last := lines[..|lines| - 1], lines[|lines| - 1];
      assert Flatten(lines) + rest == Flatten(front) + (last + rest);
      LinesSplitBack(front, last + rest);
      FirstLine(last, rest);
    }
  }

  /** Part of a line, without its end, is no line. */
  predicate PartOf(part: string, line: string) { |part| < |line| && part == line[..|part|] }

  lemma PartIsNoLine(part: string, line: string)
    requires IsLine(line) && PartOf(part, line)
    ensures Lines(part) == []
  {
    assert forall i | 0 <= i < |part| :: part[i] == Body(line)[i];
  }
}
