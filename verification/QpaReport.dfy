/** The line parser of a test session report (cts/upstream_runner.py): a state
    machine over marker lines that refuses whatever it does not understand. */
module QpaReport {
  import opened Positions
  import opened Words

  // ----- lines and results

  /** A report line. The path of a begin marker is None when it is not one word,
      the code of a terminate marker None when it is missing. */
  datatype Line =
    | BeginSession
    | EndSession
    | BeginTiming
    | EndTiming
    | BeginCase(path: Option<string>)
    | TerminateCase(status: Option<string>)
    | EndCase
    | Text(text: string)

  datatype CaseResult = CaseResult(path: string, status: string, details: string, terminated: bool)

  /** What a closed case's text says: a status and details, or nothing legible. */
  type BlockParser = (string, seq<string>) -> Option<(string, string)>

  datatype Fault =
    | BeginSessionCount(n: nat)
    | EndSessionCount(n: nat)
    | EndBeforeBegin
    | NestedTiming
    | TimingInsideCase
    | EndTimingAlone
    | CaseInsideTiming
    | CaseNotTerminated(path: string)
    | MalformedPath
    | TerminateAlone
    | NoResultCode
    | EndCaseAlone
    | BadBlock(path: string)
    | CaseOpenAtEnd(path: string)
    | TimingOpenAtEnd

  datatype Result<+T> = Ok(value: T) | Err(fault: Fault)

  // ----- the machine

  datatype OpenCase = OpenCase(path: string, texts: seq<string>)

  datatype Machine = Machine(results: seq<CaseResult>, open: Option<OpenCase>, inTiming: bool)

  function Abrupt(path: string, status: string): CaseResult {
    CaseResult(path, status, "case terminated abruptly", true)
  }

  function Closed(path: string, texts: seq<string>, block: BlockParser): Option<CaseResult> {
    if block(path, texts).None? then None
    else Some(CaseResult(path, block(path, texts).value.0, block(path, texts).value.1, false))
  }

  function OpenLine(m: Machine, path: Option<string>): Result<Machine> {
    if m.inTiming then Err(CaseInsideTiming)
    else if m.open.Some? then Err(CaseNotTerminated(m.open.value.path))
    else if path.None? then Err(MalformedPath)
    else Ok(Machine(m.results, Some(OpenCase(path.value, [])), m.inTiming))
  }

  function TerminateLine(m: Machine, status: Option<string>): Result<Machine> {
    if m.open.None? then Err(TerminateAlone)
    else if status.None? then Err(NoResultCode)
    else Ok(Machine(m.results + [Abrupt(m.open.value.path, status.value)], None, m.inTiming))
  }

  function EndLine(m: Machine, block: BlockParser): Result<Machine> {
    if m.open.None? then Err(EndCaseAlone)
    else
      var result := Closed(m.open.value.path, m.open.value.texts, block);
      if result.None? then Err(BadBlock(m.open.value.path))
      else Ok(Machine(m.results + [result.value], None, m.inTiming))
  }

  function TextLine(m: Machine, text: string): Machine {
    if m.open.None? then m
    else Machine(m.results, Some(OpenCase(m.open.value.path, m.open.value.texts + [text])), m.inTiming)
  }

  /** One line inside the session; a session marker is no marker there. */
  function Step(m: Machine, line: Line, block: BlockParser): Result<Machine> {
    match line
    case BeginTiming =>
      if m.inTiming then Err(NestedTiming)
      else if m.open.Some? then Err(TimingInsideCase)
      else Ok(Machine(m.results, m.open, true))
    case EndTiming => if !m.inTiming then Err(EndTimingAlone) else Ok(Machine(m.results, m.open, false))
    case BeginCase(path) => OpenLine(m, path)
    case TerminateCase(status) => TerminateLine(m, status)
    case EndCase => EndLine(m, block)
    case Text(text) => Ok(TextLine(m, text))
    case BeginSession => Ok(TextLine(m, "#beginSession"))
    case EndSession => Ok(TextLine(m, "#endSession"))
  }

  function Run(m: Machine, lines: seq<Line>, block: BlockParser): Result<Machine>
    decreases |lines|
  {
    if lines == [] then Ok(m)
    else if Step(m, lines[0], block).Err? then Step(m, lines[0], block)
    else Run(Step(m, lines[0], block).value, lines[1..], block)
  }

  function Idle(results: seq<CaseResult>): Machine { Machine(results, None, false) }

  /** The lines between the session markers, and what must hold at their end. */
  function ParsedSession(lines: seq<Line>, block: BlockParser): Result<seq<CaseResult>> {
    var run := Run(Idle([]), lines, block);
    if run.Err? then Err(run.fault)
    else if run.value.open.Some? then Err(CaseOpenAtEnd(run.value.open.value.path))
    else if run.value.inTiming then Err(TimingOpenAtEnd)
    else Ok(run.value.results)
  }

  function IsBegin(): Line -> bool { (l: Line) => l.BeginSession? }
  function IsEnd(): Line -> bool { (l: Line) => l.EndSession? }

  function Parsed(lines: seq<Line>, block: BlockParser): Result<seq<CaseResult>> {
    var begins, ends := Places(lines, IsBegin(), |lines|), Places(lines, IsEnd(), |lines|);
    PlacesAre(lines, IsBegin(), |lines|);
    PlacesAre(lines, IsEnd(), |lines|);
    if |begins| != 1 then Err(BeginSessionCount(|begins|))
    else if |ends| != 1 then Err(EndSessionCount(|ends|))
    else if ends[0] < begins[0] then Err(EndBeforeBegin)
    else
      OneKind(lines, begins[0], ends[0]);
      ParsedSession(lines[begins[0] + 1..ends[0]], block)
  }

  lemma OneKind(lines: seq<Line>, b: nat, e: nat)
    requires b < |lines| && e < |lines| && IsBegin()(lines[b]) && IsEnd()(lines[e])
    ensures b != e
  {
  }

  // ----- the loops

  method FindAll(lines: seq<Line>, p: Line -> bool) returns (places: seq<nat>)
    ensures places == Places(lines, p, |lines|)
  {
    places := [];
    var i := 0;
    while i < |lines|
      invariant i <= |lines| && places == Places(lines, p, i)
    {
      if p(lines[i]) {
        places := places + [i];
      }
      i := i + 1;
    }
  }

  /** One turn of the loop, on the variables it updates. */
  method Turn(results: seq<CaseResult>, open: Option<OpenCase>, inTiming: bool, line: Line, block: BlockParser)
    returns (fault: Option<Fault>, results': seq<CaseResult>, open': Option<OpenCase>, inTiming': bool)
    ensures Step(Machine(results, open, inTiming), line, block) ==
      if fault.Some? then Err(fault.value) else Ok(Machine(results', open', inTiming'))
  {
    fault, results', open', inTiming' := None, results, open, inTiming;
    match line
    case BeginTiming =>
      if inTiming {
        fault := Some(NestedTiming);
      } else if open.Some? {
        fault := Some(TimingInsideCase);
      } else {
        inTiming' := true;
      }
    case EndTiming =>
      if !inTiming {
        fault := Some(EndTimingAlone);
      } else {
        inTiming' := false;
      }
    case BeginCase(path) =>
      if inTiming {
        fault := Some(CaseInsideTiming);
      } else if open.Some? {
        fault := Some(CaseNotTerminated(open.value.path));
      } else if path.None? {
        fault := Some(MalformedPath);
      } else {
        open' := Some(OpenCase(path.value, []));
      }
    case TerminateCase(status) =>
      if open.None? {
        fault := Some(TerminateAlone);
      } else if status.None? {
        fault := Some(NoResultCode);
      } else {
        var ended := CaseResult(open.value.path, status.value, "case terminated abruptly", true);
        results', open' := results + [ended], None;
      }
    case EndCase =>
      if open.None? {
        fault := Some(EndCaseAlone);
      } else {
        var parsed := block(open.value.path, open.value.texts);
        if parsed.None? {
          fault := Some(BadBlock(open.value.path));
        } else {
          results', open' := results + [CaseResult(open.value.path, parsed.value.0, parsed.value.1, false)], None;
        }
      }
    case Text(text) =>
      if open.Some? {
        open' := Some(OpenCase(open.value.path, open.value.texts + [text]));
      }
    case BeginSession =>
      if open.Some? {
        open' := Some(OpenCase(open.value.path, open.value.texts + ["#beginSession"]));
      }
    case EndSession =>
      if open.Some? {
        open' := Some(OpenCase(open.value.path, open.value.texts + ["#endSession"]));
      }
  }

  /** No case is ever open in a timing section. */
  predicate Exclusive(open: Option<OpenCase>, inTiming: bool) { !(open.Some? && inTiming) }

  method ParseQpaResults(lines: seq<Line>, block: BlockParser) returns (r: Result<seq<CaseResult>>)
    ensures r == Parsed(lines, block)
  {
    hide Step, Places;
    var begins := FindAll(lines, IsBegin());
    var ends := FindAll(lines, IsEnd());
    PlacesAre(lines, IsBegin(), |lines|);
    PlacesAre(lines, IsEnd(), |lines|);
    if |begins| != 1 {
      return Err(BeginSessionCount(|begins|));
    }
    if |ends| != 1 {
      return Err(EndSessionCount(|ends|));
    }
    if ends[0] < begins[0] {
      return Err(EndBeforeBegin);
    }
    OneKind(lines, begins[0], ends[0]);
    r := ParseLines(lines, begins[0] + 1, ends[0], block);
  }

  method ParseLines(lines: seq<Line>, from: nat, to: nat, block: BlockParser) returns (r: Result<seq<CaseResult>>)
    requires from <= to <= |lines|
    ensures r == ParsedSession(lines[from..to], block)
  {
    hide Step;
    var results: seq<CaseResult> := [];
    var open: Option<OpenCase> := None;
    var inTiming := false;
    var index := from;
    while index < to
      invariant from <= index <= to && Exclusive(open, inTiming)
      invariant Run(Machine(results, open, inTiming), lines[index..to], block) == Run(Idle([]), lines[from..to], block)
    {
      assert lines[index..to][1..] == lines[index + 1..to];
      StepIsExclusive(Machine(results, open, inTiming), lines[index], block);
      var fault;
      fault, results, open, inTiming := Turn(results, open, inTiming, lines[index], block);
      if fault.Some? {
        return Err(fault.value);
      }
      index := index + 1;
    }
    if open.Some? {
      return Err(CaseOpenAtEnd(open.value.path));
    }
    if inTiming {
      return Err(TimingOpenAtEnd);
    }
    r := Ok(results);
  }

  lemma StepIsExclusive(m: Machine, line: Line, block: BlockParser)
    requires Exclusive(m.open, m.inTiming)
    ensures Step(m, line, block).Ok? ==> Exclusive(Step(m, line, block).value.open, Step(m, line, block).value.inTiming)
  {
  }
}
