/** Reports line by line: which lines decide which result, and which line is at
    fault when a report is refused. */
module QpaCases {
  import opened Positions
  import opened Words
  import opened QpaReport
  import opened QpaGrammar

  // ----- lines that open and close

  function IsOpening(): Line -> bool { (l: Line) => l.BeginCase? }

  function IsClosing(): Line -> bool { (l: Line) => l.EndCase? || l.TerminateCase? }

  predicate AllText(lines: seq<Line>) { forall i | 0 <= i < |lines| :: lines[i].Text? }

  function TextsOf(lines: seq<Line>): (texts: seq<string>)
    requires AllText(lines)
    ensures |texts| == |lines| && forall i | 0 <= i < |lines| :: texts[i] == lines[i].text
  {
    seq(|lines|, i requires 0 <= i < |lines| => lines[i].text)
  }

  /** The case that line `from` opens and line `to` closes has this result: the path
      of its opening line; a result code, fixed details and a mark when it was
      terminated; and what the block parser makes of the lines between otherwise. */
  predicate Decided(lines: seq<Line>, from: nat, to: nat, r: CaseResult, block: BlockParser) {
    && from < to < |lines| && lines[from] == BeginCase(Some(r.path)) && AllText(lines[from + 1..to])
    && match lines[to]
       case TerminateCase(code) => code == Some(r.status) && r.details == "case terminated abruptly" && r.terminated
       case EndCase => block(r.path, TextsOf(lines[from + 1..to])) == Some((r.status, r.details)) && !r.terminated
       case _ => false
  }

  /** A case was opened at `from` and nothing but text has followed. */
  predicate Pending(lines: seq<Line>, from: nat, n: nat, open: OpenCase) {
    && from < n <= |lines| && lines[from] == BeginCase(Some(open.path)) && AllText(lines[from + 1..n])
    && open.texts == TextsOf(lines[from + 1..n])
  }

  /** Line j opens a timing section that has not been closed before line n. */
  predicate TimingSince(lines: seq<Line>, j: nat, n: nat) {
    j < n <= |lines| && lines[j].BeginTiming? && forall i | j < i < n :: !lines[i].EndTiming?
  }

  ghost predicate InTiming(lines: seq<Line>, n: nat) { exists j: nat :: TimingSince(lines, j, n) }

  /** Where the machine stands after the first n lines of a session. */
  ghost predicate Tracks(lines: seq<Line>, n: nat, m: Machine, block: BlockParser)
    requires n <= |lines|
  {
    var opens, closes := Places(lines, IsOpening(), n), Places(lines, IsClosing(), n);
    && |closes| == |m.results| && |opens| == |m.results| + (if m.open.Some? then 1 else 0)
    && (forall k | 0 <= k < |m.results| :: Decided(lines, opens[k], closes[k], m.results[k], block))
    && (m.open.Some? ==> Pending(lines, opens[|m.results|], n, m.open.value))
    && (m.inTiming <==> InTiming(lines, n))
    && Exclusive(m.open, m.inTiming)
  }

  lemma TimingNext(lines: seq<Line>, n: nat)
    requires n < |lines|
    ensures InTiming(lines, n + 1) <==> lines[n].BeginTiming? || (InTiming(lines, n) && !lines[n].EndTiming?)
  {
    if lines[n].BeginTiming? {
      assert TimingSince(lines, n, n + 1);
    }
    if InTiming(lines, n) && !lines[n].EndTiming? {
      var j: nat :| TimingSince(lines, j, n);
      assert TimingSince(lines, j, n + 1);
    }
    if InTiming(lines, n + 1) && !lines[n].BeginTiming? {
      var j: nat :| TimingSince(lines, j, n + 1);
      assert j != n;
      assert TimingSince(lines, j, n);
    }
  }

  lemma PendingNext(lines: seq<Line>, from: nat, n: nat, open: OpenCase)
    requires n < |lines| && Pending(lines, from, n, open) && lines[n].Text?
    ensures Pending(lines, from, n + 1, OpenCase(open.path, open.texts + [lines[n].text]))
  {
    assert lines[from + 1..n + 1] == lines[from + 1..n] + [lines[n]];
  }

  lemma TracksNext(lines: seq<Line>, n: nat, m: Machine, block: BlockParser)
    requires n < |lines| && NoMarkers(lines) && Tracks(lines, n, m, block) && Step(m, lines[n], block).Ok?
    ensures Tracks(lines, n + 1, Step(m, lines[n], block).value, block)
  {
    hide Places, InTiming, Decided, TimingSince;
    var opens := Places(lines, IsOpening(), n);
    TimingNext(lines, n);
    PlacesSnoc(lines, IsOpening(), n);
    PlacesSnoc(lines, IsClosing(), n);
    if m.open.Some? {
      if lines[n].Text? {
        PendingNext(lines, opens[|m.results|], n, m.open.value);
      } else {
        ClosesCase(lines, opens[|m.results|], n, m, block);
      }
    } else if lines[n].BeginCase? {
      assert lines[n + 1..n + 1] == [];
    }
  }

  lemma PlacesSnoc(lines: seq<Line>, p: Line -> bool, n: nat)
    requires n < |lines|
    ensures Places(lines, p, n + 1) == Places(lines, p, n) + if p(lines[n]) then [n] else []
  {
  }

  lemma ClosesCase(lines: seq<Line>, from: nat, n: nat, m: Machine, block: BlockParser)
    requires n < |lines| && m.open.Some? && Pending(lines, from, n, m.open.value) && !m.inTiming
    requires NoMarkers(lines) && !lines[n].Text? && Step(m, lines[n], block).Ok?
    ensures var next := Step(m, lines[n], block).value;
      && IsClosing()(lines[n]) && next.open.None? && !next.inTiming
      && |next.results| == |m.results| + 1 && next.results[..|m.results|] == m.results
      && Decided(lines, from, n, next.results[|m.results|], block)
  {
  }

  lemma NothingTracked(lines: seq<Line>, block: BlockParser)
    ensures Tracks(lines, 0, Idle([]), block)
  {
  }

  lemma RunSnoc(m: Machine, lines: seq<Line>, n: nat, block: BlockParser)
    requires n < |lines|
    ensures var first := Run(m, lines[..n], block);
      Run(m, lines[..n + 1], block) == if first.Err? then first else Step(first.value, lines[n], block)
  {
    hide Step;
    assert lines[..n + 1] == lines[..n] + [lines[n]];
    RunAppend(m, lines[..n], [lines[n]], block);
    if Run(m, lines[..n], block).Ok? {
      RunOne(Run(m, lines[..n], block).value, lines[n], [], block);
      assert [lines[n]] + [] == [lines[n]];
    }
  }

  lemma {:induction false} RunTracks(lines: seq<Line>, n: nat, block: BlockParser)
    requires n <= |lines| && NoMarkers(lines) && Run(Idle([]), lines[..n], block).Ok?
    ensures Tracks(lines, n, Run(Idle([]), lines[..n], block).value, block)
  {
    hide Run, Tracks, Step;
    if n == 0 {
      NothingTracked(lines, block);
      RunNothing(Idle([]), block);
    } else {
      RunSnoc(Idle([]), lines, n - 1, block);
      RunTracks(lines, n - 1, block);
      TracksNext(lines, n - 1, Run(Idle([]), lines[..n - 1], block).value, block);
    }
  }

  // ----- accepted reports

  /** The lines between the session markers. */
  function Session(lines: seq<Line>): seq<Line>
    requires |Places(lines, IsBegin(), |lines|)| == 1 == |Places(lines, IsEnd(), |lines|)|
    requires Places(lines, IsBegin(), |lines|)[0] < Places(lines, IsEnd(), |lines|)[0]
  {
    PlacesAre(lines, IsEnd(), |lines|);
    lines[Places(lines, IsBegin(), |lines|)[0] + 1..Places(lines, IsEnd(), |lines|)[0]]
  }

  /** The session markers are in place. */
  predicate HasSession(lines: seq<Line>) {
    && |Places(lines, IsBegin(), |lines|)| == 1 == |Places(lines, IsEnd(), |lines|)|
    && Places(lines, IsBegin(), |lines|)[0] < Places(lines, IsEnd(), |lines|)[0]
  }

  lemma SessionHasNoMarkers(lines: seq<Line>)
    requires HasSession(lines)
    ensures NoMarkers(Session(lines))
  {
    hide Places, Only;
    OnePlace(lines, IsBegin());
    OnePlace(lines, IsEnd());
    CutAtMarkers(lines, Places(lines, IsBegin(), |lines|)[0], Places(lines, IsEnd(), |lines|)[0]);
  }

  lemma ParsedInSession(lines: seq<Line>, block: BlockParser)
    ensures HasSession(lines) ==> Parsed(lines, block) == ParsedSession(Session(lines), block)
    ensures Parsed(lines, block).Ok? ==> HasSession(lines)
  {
    hide Places, ParsedSession;
    if |Places(lines, IsBegin(), |lines|)| == 1 == |Places(lines, IsEnd(), |lines|)| {
      PlacesAre(lines, IsBegin(), |lines|);
      PlacesAre(lines, IsEnd(), |lines|);
      OneKind(lines, Places(lines, IsBegin(), |lines|)[0], Places(lines, IsEnd(), |lines|)[0]);
    }
  }

  /** In every accepted report the k-th opening and the k-th closing line of the
      session decide the k-th result, and there are no others. */
  lemma LinesDecideResults(lines: seq<Line>, block: BlockParser)
    requires Parsed(lines, block).Ok?
    ensures HasSession(lines)
    ensures var session, results := Session(lines), Parsed(lines, block).value;
      var opens, closes := Places(session, IsOpening(), |session|), Places(session, IsClosing(), |session|);
      && |opens| == |closes| == |results|
      && forall k | 0 <= k < |results| :: Decided(session, opens[k], closes[k], results[k], block)
  {
    hide Places, Run, Session, Decided;
    ParsedInSession(lines, block);
    SessionHasNoMarkers(lines);
    var session := Session(lines);
    assert session[..|session|] == session;
    RunTracks(session, |session|, block);
  }

  // ----- refused reports

  ghost predicate CaseOpen(lines: seq<Line>, n: nat, path: string) {
    exists from: nat, texts: seq<string> :: Pending(lines, from, n, OpenCase(path, texts))
  }

  ghost predicate NoCaseOpen(lines: seq<Line>, n: nat) { forall path: string :: !CaseOpen(lines, n, path) }

  /** Line n is at fault: what it is and what is open before it. */
  ghost predicate AtFault(lines: seq<Line>, n: nat, fault: Fault, block: BlockParser)
    requires n < |lines|
  {
    match fault
    case NestedTiming => lines[n].BeginTiming? && InTiming(lines, n)
    case TimingInsideCase => lines[n].BeginTiming? && exists path :: CaseOpen(lines, n, path)
    case EndTimingAlone => lines[n].EndTiming? && !InTiming(lines, n)
    case CaseInsideTiming => lines[n].BeginCase? && InTiming(lines, n)
    case CaseNotTerminated(path) => lines[n].BeginCase? && CaseOpen(lines, n, path)
    case MalformedPath => lines[n] == BeginCase(None)
    case TerminateAlone => lines[n].TerminateCase? && NoCaseOpen(lines, n)
    case NoResultCode => lines[n] == TerminateCase(None)
    case EndCaseAlone => lines[n].EndCase? && NoCaseOpen(lines, n)
    case BadBlock(path) =>
      lines[n].EndCase? && exists from: nat, texts: seq<string> ::
        Pending(lines, from, n, OpenCase(path, texts)) && block(path, texts).None?
    case _ => false
  }

  /** A case that is pending is the one the last opening line opened. */
  lemma PendingIsLast(lines: seq<Line>, from: nat, n: nat, open: OpenCase)
    requires Pending(lines, from, n, open)
    ensures var opens, closes := Places(lines, IsOpening(), n), Places(lines, IsClosing(), n);
      && opens != [] && opens[|opens| - 1] == from && (closes == [] || closes[|closes| - 1] < from)
    decreases n
  {
    if from < n - 1 {
      assert lines[n - 1] == lines[from + 1..n][n - 1 - from - 1];
      assert lines[from + 1..n - 1] == lines[from + 1..n][..n - 1 - from - 1];
      PendingIsLast(lines, from, n - 1, OpenCase(open.path, TextsOf(lines[from + 1..n - 1])));
    } else {
      PlacesAre(lines, IsClosing(), n);
    }
  }

  /** Cases are pending exactly when the machine has one open. */
  lemma OpenIsPending(lines: seq<Line>, n: nat, m: Machine, block: BlockParser)
    requires n <= |lines| && Tracks(lines, n, m, block)
    ensures m.open.None? ==> NoCaseOpen(lines, n)
    ensures m.open.Some? ==> CaseOpen(lines, n, m.open.value.path)
  {
    hide Places, InTiming;
    if m.open.None? {
      forall path: string, from: nat, texts: seq<string> ensures !Pending(lines, from, n, OpenCase(path, texts)) {
        if Pending(lines, from, n, OpenCase(path, texts)) {
          PendingIsLast(lines, from, n, OpenCase(path, texts));
          assert false;
        }
      }
    }
  }

  lemma StepFaults(lines: seq<Line>, n: nat, m: Machine, block: BlockParser)
    requires n < |lines| && Tracks(lines, n, m, block) && NoMarkers(lines) && Step(m, lines[n], block).Err?
    ensures AtFault(lines, n, Step(m, lines[n], block).fault, block)
  {
    hide Places, InTiming, Decided, Pending;
    OpenIsPending(lines, n, m, block);
  }

  /** A run that stops stops at a line that is at fault, after lines that are not. */
  lemma {:induction false} RunFaults(lines: seq<Line>, n: nat, block: BlockParser) returns (i: nat)
    requires n <= |lines| && NoMarkers(lines) && Run(Idle([]), lines[..n], block).Err?
    ensures i < n && Run(Idle([]), lines[..i], block).Ok?
    ensures AtFault(lines, i, Run(Idle([]), lines[..n], block).fault, block)
  {
    hide Run, Tracks, Step, AtFault;
    i := 0;
    if n == 0 {
      assert lines[..0] == [];
      RunNothing(Idle([]), block);
    } else {
      RunSnoc(Idle([]), lines, n - 1, block);
      if Run(Idle([]), lines[..n - 1], block).Err? {
        i := RunFaults(lines, n - 1, block);
      } else {
        i := n - 1;
        RunTracks(lines, i, block);
        StepFaults(lines, i, Run(Idle([]), lines[..i], block).value, block);
      }
    }
  }

  /** What a refusal means: the session markers are not one pair in order, or the
      first line that is at fault is, or something is open at the end. */
  lemma FaultsAreTrue(lines: seq<Line>, block: BlockParser) returns (i: nat)
    requires Parsed(lines, block).Err?
    ensures var fault := Parsed(lines, block).fault;
      var begins, ends := Places(lines, IsBegin(), |lines|), Places(lines, IsEnd(), |lines|);
      match fault
      case BeginSessionCount(k) => k == |begins| != 1
      case EndSessionCount(k) => k == |ends| != 1
      case EndBeforeBegin => |begins| == |ends| == 1 && ends[0] < begins[0]
      case CaseOpenAtEnd(path) => HasSession(lines) && CaseOpen(Session(lines), |Session(lines)|, path)
      case TimingOpenAtEnd => HasSession(lines) && InTiming(Session(lines), |Session(lines)|)
      case _ =>
        && HasSession(lines) && i < |Session(lines)| && AtFault(Session(lines), i, fault, block)
        && Run(Idle([]), Session(lines)[..i], block).Ok?
  {
    hide Places, Run, AtFault, InTiming, CaseOpen;
    i := 0;
    ParsedInSession(lines, block);
    if HasSession(lines) {
      SessionHasNoMarkers(lines);
      var session := Session(lines);
      assert session[..|session|] == session;
      if Run(Idle([]), session, block).Err? {
        i := RunFaults(session, |session|, block);
        NeverAtTheEnd(session, i, Run(Idle([]), session, block).fault, block);
      } else {
        RunTracks(session, |session|, block);
        OpenIsPending(session, |session|, Run(Idle([]), session, block).value, block);
      }
    } else if |Places(lines, IsBegin(), |lines|)| == 1 == |Places(lines, IsEnd(), |lines|)| {
      PlacesAre(lines, IsBegin(), |lines|);
      PlacesAre(lines, IsEnd(), |lines|);
      OneKind(lines, Places(lines, IsBegin(), |lines|)[0], Places(lines, IsEnd(), |lines|)[0]);
    }
  }

  lemma NeverAtTheEnd(lines: seq<Line>, n: nat, fault: Fault, block: BlockParser)
    requires n < |lines| && AtFault(lines, n, fault, block)
    ensures !fault.BeginSessionCount? && !fault.EndSessionCount? && !fault.EndBeforeBegin?
    ensures !fault.CaseOpenAtEnd? && !fault.TimingOpenAtEnd?
  {
  }
}
