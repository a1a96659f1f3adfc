/** A logging session (cts/ps5log.h) as its server sees it: every connection greets,
    then carries whole records with consecutive numbers, then at most one torn line
    or the goodbye. */
module LogSession {
  import opened LogFormat
  import opened LogRecords
  import opened Words

  const MAX_LINE: nat := 1024
  const HELLO_LINE: nat := 256
  const BYE_LINE: nat := 192

  // ----- what a connection has carried

  datatype Entry = Entry(time: nat, level: string, text: string)

  /** How a connection ended, if it has: in the middle of a line, or with the
      goodbye. */
  datatype Tail =
    | Open
    | TornHello(part: string)
    | TornRecord(entry: Entry, part: string)
    | TornBye(reason: string, part: string)
    | Bye(reason: string)

  /** A connection: its greeting, the number of its first record, its records, and
      its end. */
  datatype Connection = Connection(hello: Hello, resume: bool, first: nat, entries: seq<Entry>, tail: Tail)

  // Records are numbered without end here; the client counts in 64 bits, and its
  // lines show what is left of a number there.

  /** The greeting that announces the record with this number. */
  function Greeting(h: Hello, resume: bool, number: nat): string {
    LineOf(HelloContent(h, resume, number % U64), HELLO_LINE)
  }

  function HelloLine(c: Connection): string { Greeting(c.hello, c.resume, c.first) }

  function RecordLine(number: nat, e: Entry): string {
    LineOf(Content(number % U64, e.time, e.level, e.text), MAX_LINE)
  }

  function ByeLine(number: nat, reason: string): string { LineOf(ByeContent(number % U64, reason), BYE_LINE) }

  /** The number of a connection's last record, or of the last one before it. */
  function LastNumber(c: Connection): nat
    requires c.first > 0
  {
    c.first - 1 + |c.entries|
  }

  /** The lines of records with consecutive numbers. */
  function RecordLines(first: nat, entries: seq<Entry>): (lines: seq<string>)
    ensures |lines| == |entries|
  {
    if entries == [] then []
    else RecordLines(first, entries[..|entries| - 1]) + [RecordLine(first + |entries| - 1, entries[|entries| - 1])]
  }

  /** All that a connection has carried. */
  function Bytes(c: Connection): string
    requires c.first > 0
  {
    match c.tail
    case TornHello(part) => part
    case Open => HelloLine(c) + Flatten(RecordLines(c.first, c.entries))
    case TornRecord(_, part) => HelloLine(c) + Flatten(RecordLines(c.first, c.entries)) + part
    case TornBye(_, part) => HelloLine(c) + Flatten(RecordLines(c.first, c.entries)) + part
    case Bye(reason) => HelloLine(c) + Flatten(RecordLines(c.first, c.entries)) + ByeLine(LastNumber(c), reason)
  }

  /** A torn line is a part of the line that was due: the greeting, the next
      record, or the goodbye; a torn greeting is followed by nothing. */
  predicate WellFormed(c: Connection) {
    && c.first > 0
    && match c.tail
       case TornHello(part) => c.entries == [] && PartOf(part, HelloLine(c))
       case TornRecord(e, part) => PartOf(part, RecordLine(LastNumber(c) + 1, e))
       case TornBye(reason, part) => PartOf(part, ByeLine(LastNumber(c), reason))
       case _ => true
  }

  // ----- the session

  /** The history of a session: every connection since the beginning, which of them
      belong to the current run, and the run's counters. */
  datatype Run = Run(history: seq<Connection>, start: nat, number: nat, sent: nat, dropped: nat, connected: bool)

  function Recorded(cs: seq<Connection>): nat {
    if cs == [] then 0 else Recorded(cs[..|cs| - 1]) + |cs[|cs| - 1].entries|
  }

  function Last(run: Run): Connection
    requires run.history != []
  {
    run.history[|run.history| - 1]
  }

  predicate AllWellFormed(history: seq<Connection>) { forall i | 0 <= i < |history| :: WellFormed(history[i]) }

  /** Only the last connection may be open, and it is if the session is connected. */
  predicate OpenAtEnd(history: seq<Connection>, connected: bool) {
    && (connected ==> history != [])
    && forall i | 0 <= i < |history| :: history[i].tail.Open? <==> connected && i == |history| - 1
  }

  /** The numbers a connection uses end before a later one's begin. */
  predicate Precedes(a: Connection, b: Connection) { a.first + |a.entries| <= b.first }

  predicate Ordered(history: seq<Connection>, start: nat, number: nat) {
    && start <= |history|
    && (forall i, j | start <= i < j < |history| :: Precedes(history[i], history[j]))
    && (forall i | start <= i < |history| :: history[i].first + |history[i].entries| <= number + 1)
  }

  /** An open connection belongs to the current run and carries every record up to
      the counter. */
  predicate UpToDate(run: Run) {
    run.connected ==> run.start < |run.history| && run.number + 1 == Last(run).first + |Last(run).entries|
  }

  /** Every line counted was sent or dropped; every line sent is on a connection. */
  predicate Counted(run: Run)
    requires run.start <= |run.history|
  {
    run.number == run.sent + run.dropped && run.sent == Recorded(run.history[run.start..])
  }

  predicate Kept(run: Run) {
    && AllWellFormed(run.history) && OpenAtEnd(run.history, run.connected)
    && Ordered(run.history, run.start, run.number) && UpToDate(run) && Counted(run)
  }

  const FRESH: Run := Run([], 0, 0, 0, 0, false)

  /** The last connection replaced. */
  function WithLast(run: Run, c: Connection): seq<Connection>
    requires run.history != []
  {
    run.history[..|run.history| - 1] + [c]
  }

  // ----- the steps

  /** A new run: numbers and counters start again. */
  function Reset(run: Run): Run { Run(run.history, |run.history|, 0, 0, 0, false) }

  /** A connection is opened and the greeting goes out whole, or in part. */
  function Greet(run: Run, hello: Hello, resume: bool, part: Option<string>): Run {
    var c := Connection(hello, resume, run.number + 1, [], if part.None? then Open else TornHello(part.value));
    Run(run.history + [c], run.start, run.number, run.sent, run.dropped, part.None?)
  }

  /** A record goes out whole. */
  function Send(run: Run, e: Entry): Run
    requires run.history != []
  {
    var c := Last(run);
    Run(WithLast(run, Connection(c.hello, c.resume, c.first, c.entries + [e], c.tail)),
        run.start, run.number + 1, run.sent + 1, run.dropped, true)
  }

  /** The last connection ends. */
  function End(run: Run, tail: Tail): Run
    requires run.history != []
  {
    var c := Last(run);
    Run(WithLast(run, Connection(c.hello, c.resume, c.first, c.entries, tail)),
        run.start, run.number, run.sent, run.dropped, false)
  }

  /** A record is counted but not delivered. */
  function Drop(run: Run): Run { Run(run.history, run.start, run.number + 1, run.sent, run.dropped + 1, run.connected) }

  lemma RecordedSnoc(cs: seq<Connection>, c: Connection)
    ensures Recorded(cs + [c]) == Recorded(cs) + |c.entries|
  {
    assert (cs + [c])[..|cs|] == cs;
  }

  lemma ResetKeeps(run: Run)
    requires Kept(run) && !run.connected
    ensures Kept(Reset(run))
  {
    hide WellFormed;
    assert run.history[|run.history|..] == [];
  }

  lemma GreetKeeps(run: Run, hello: Hello, resume: bool, part: Option<string>)
    requires Kept(run) && !run.connected
    requires part.Some? ==> PartOf(part.value, Greeting(hello, resume, run.number + 1))
    ensures Kept(Greet(run, hello, resume, part))
  {
    hide WellFormed, Recorded, AllWellFormed, OpenAtEnd, Greeting, PartOf;
    var c := Connection(hello, resume, run.number + 1, [], if part.None? then Open else TornHello(part.value));
    GreetedIsWellFormed(c);
    assert run.start <= |run.history|;
    hide Ordered;
    AddedCounts(run, c);
    AddedAtEnd(run.history, run.start, run.number, c);
  }

  lemma GreetedIsWellFormed(c: Connection)
    requires c.first > 0 && c.entries == []
    requires c.tail.Open? || (c.tail.TornHello? && PartOf(c.tail.part, Greeting(c.hello, c.resume, c.first)))
    ensures WellFormed(c)
  {
    hide Greeting, PartOf;
  }

  lemma AddedAtEnd(history: seq<Connection>, start: nat, number: nat, c: Connection)
    requires AllWellFormed(history) && OpenAtEnd(history, false) && Ordered(history, start, number)
    requires WellFormed(c) && c.first == number + 1 && c.entries == []
    ensures AllWellFormed(history + [c]) && OpenAtEnd(history + [c], c.tail.Open?)
    ensures Ordered(history + [c], start, number)
  {
    hide WellFormed;
  }

  lemma AddedCounts(run: Run, c: Connection)
    requires run.start <= |run.history|
    ensures Recorded((run.history + [c])[run.start..]) == Recorded(run.history[run.start..]) + |c.entries|
  {
    assert (run.history + [c])[run.start..] == run.history[run.start..] + [c];
    RecordedSnoc(run.history[run.start..], c);
  }

  /** Changing the last connection of the current run. */
  lemma RecordedLast(run: Run, c: Connection)
    requires run.start < |run.history|
    ensures Recorded(WithLast(run, c)[run.start..])
            == Recorded(run.history[run.start..]) - |Last(run).entries| + |c.entries|
  {
    var front := run.history[run.start..|run.history| - 1];
    assert run.history[run.start..] == front + [Last(run)];
    assert WithLast(run, c)[run.start..] == front + [c];
    RecordedSnoc(front, Last(run));
    RecordedSnoc(front, c);
  }

  lemma SendKeeps(run: Run, e: Entry)
    requires Kept(run) && run.connected
    ensures Kept(Send(run, e))
  {
    var c := Last(run);
    var grown := Connection(c.hello, c.resume, c.first, c.entries + [e], c.tail);
    assert WellFormed(grown) by { assert WellFormed(c); }
    hide WellFormed, Recorded;
    RecordedLast(run, grown);
  }

  lemma EndKeeps(run: Run, tail: Tail)
    requires Kept(run) && run.connected && !tail.Open?
    requires WellFormed(Connection(Last(run).hello, Last(run).resume, Last(run).first, Last(run).entries, tail))
    ensures Kept(End(run, tail))
  {
    hide WellFormed, Recorded;
    var c := Last(run);
    RecordedLast(run, Connection(c.hello, c.resume, c.first, c.entries, tail));
  }

  lemma DropKeeps(run: Run)
    requires Kept(run) && !run.connected
    ensures Kept(Drop(run))
  {
    hide WellFormed, Recorded;
  }

  // ----- every session

  /** What can happen to a session, with the network's part in it. */
  datatype Event =
    | Restart
    | Connect(hello: Hello, resume: bool, torn: Option<string>)
    | Deliver(entry: Entry)
    | Lose(entry: Entry, part: string)
    | Skip
    | HangUp(tail: Tail)

  /** Greetings go out on a closed session, records and goodbyes on an open one; a
      line that is not counted as sent is torn, or there is no connection. */
  predicate Allowed(run: Run, e: Event) {
    match e
    case Restart => !run.connected
    case Connect(h, resume, part) =>
      !run.connected && (part.Some? ==> PartOf(part.value, Greeting(h, resume, run.number + 1)))
    case Deliver(_) => run.connected && run.history != []
    case Lose(entry, part) => run.connected && run.history != [] && PartOf(part, RecordLine(run.number + 1, entry))
    case Skip => !run.connected
    case HangUp(tail) =>
      && run.connected && run.history != []
      && (tail.Bye? || (tail.TornBye? && PartOf(tail.part, ByeLine(run.number, tail.reason))))
  }

  function Next(run: Run, e: Event): Run
    requires Allowed(run, e)
  {
    match e
    case Restart => Reset(run)
    case Connect(h, resume, part) => Greet(run, h, resume, part)
    case Deliver(entry) => Send(run, entry)
    case Lose(entry, part) => Drop(End(run, TornRecord(entry, part)))
    case Skip => Drop(run)
    case HangUp(tail) => End(run, tail)
  }

  predicate AllAllowed(run: Run, events: seq<Event>)
    decreases |events|
  {
    events == [] || (Allowed(run, events[0]) && AllAllowed(Next(run, events[0]), events[1..]))
  }

  function Session(run: Run, events: seq<Event>): Run
    requires AllAllowed(run, events)
    decreases |events|
  {
    if events == [] then run else Session(Next(run, events[0]), events[1..])
  }

  lemma NextKeeps(run: Run, e: Event)
    requires Kept(run) && Allowed(run, e)
    ensures Kept(Next(run, e))
  {
    hide Kept, Greeting, RecordLine, ByeLine, PartOf;
    if run.connected { OpenConnection(run); }
    match e
    case Restart => ResetKeeps(run);
    case Connect(h, resume, part) => GreetKeeps(run, h, resume, part);
    case Deliver(entry) => SendKeeps(run, entry);
    case Lose(entry, part) =>
      EndKeeps(run, TornRecord(entry, part));
      DropKeeps(End(run, TornRecord(entry, part)));
    case Skip => DropKeeps(run);
    case HangUp(tail) => EndKeeps(run, tail);
  }

  lemma OpenConnection(run: Run)
    requires Kept(run) && run.connected
    ensures run.history != [] && Last(run).tail.Open? && Last(run).first > 0 && run.number == LastNumber(Last(run))
  {
    assert WellFormed(Last(run));
  }

  /** In every session, whatever the network does: every number counted was sent or
      dropped, every connection is well formed, and numbers only go up. */
  lemma {:induction false} EverySession(run: Run, events: seq<Event>)
    requires Kept(run) && AllAllowed(run, events)
    ensures Kept(Session(run, events))
    decreases |events|
  {
    hide Kept, Allowed, Next;
    if events != [] {
      NextKeeps(run, events[0]);
      EverySession(Next(run, events[0]), events[1..]);
    }
  }

  lemma FromTheStart(events: seq<Event>)
    requires AllAllowed(FRESH, events)
    ensures var end := Session(FRESH, events); Kept(end) && end.number == end.sent + end.dropped
  {
    hide Kept, Allowed, Next, Session;
    FreshIsKept();
    EverySession(FRESH, events);
    KeptIsCounted(Session(FRESH, events));
  }

  lemma FreshIsKept()
    ensures Kept(FRESH)
  {
  }

  lemma KeptIsCounted(run: Run)
    requires Kept(run)
    ensures run.number == run.sent + run.dropped
  {
  }

  // ----- what the server reads

  lemma {:induction false} RecordLinesAre(first: nat, entries: seq<Entry>)
    ensures forall i | 0 <= i < |entries| :: RecordLines(first, entries)[i] == RecordLine(first + i, entries[i])
    ensures forall i | 0 <= i < |entries| :: IsLine(RecordLines(first, entries)[i])
    decreases |entries|
  {
    hide IsLine, RecordLine;
    if entries != [] {
      var n := |entries| - 1;
      RecordLinesAre(first, entries[..n]);
      RecordLineIsLine(first + n, entries[n]);
    }
  }

  lemma RecordLineIsLine(number: nat, e: Entry)
    ensures IsLine(RecordLine(number, e))
  {
    RecordIsOneLine(MAX_LINE, number % U64, e.time, e.level, e.text);
  }

  /** What follows the records: the goodbye, or no complete line. */
  function Closing(c: Connection): seq<string>
    requires c.first > 0
  {
    if c.tail.Bye? then [Body(ByeLine(LastNumber(c), c.tail.reason))] else []
  }

  function TailBytes(c: Connection): string
    requires c.first > 0
  {
    match c.tail
    case Open => ""
    case TornHello(part) => part
    case TornRecord(_, part) => part
    case TornBye(_, part) => part
    case Bye(reason) => ByeLine(LastNumber(c), reason)
  }

  lemma ClosingLines(c: Connection)
    requires WellFormed(c)
    ensures Lines(TailBytes(c)) == Closing(c)
  {
    hide IsLine, HelloLine, ByeLine, RecordLine, PartOf;
    HelloLineIsLine(c);
    match c.tail
    case Open =>
    case TornHello(part) => PartIsNoLine(part, HelloLine(c));
    case TornRecord(e, part) =>
      RecordLineIsLine(LastNumber(c) + 1, e);
      PartIsNoLine(part, RecordLine(LastNumber(c) + 1, e));
    case TornBye(reason, part) =>
      ByeLineIsLine(LastNumber(c), reason);
      PartIsNoLine(part, ByeLine(LastNumber(c), reason));
    case Bye(reason) =>
      ByeLineIsLine(LastNumber(c), reason);
      FirstLine(ByeLine(LastNumber(c), reason), "");
      assert ByeLine(LastNumber(c), reason) + "" == ByeLine(LastNumber(c), reason);
  }

  lemma HelloLineIsLine(c: Connection)
    ensures IsLine(HelloLine(c))
  {
    HelloIsOneLine(HELLO_LINE, c.hello, c.resume, c.first % U64);
  }

  lemma ByeLineIsLine(number: nat, reason: string)
    ensures IsLine(ByeLine(number, reason))
  {
    ByeIsOneLine(BYE_LINE, number % U64, reason);
  }

  /** The complete lines of a greeted connection are its greeting, its records and,
      if it was closed in good order, the goodbye; an ungreeted one has none. */
  lemma ConnectionReads(c: Connection)
    requires WellFormed(c)
    ensures forall i | 0 <= i < |c.entries| :: IsLine(RecordLines(c.first, c.entries)[i])
    ensures c.tail.TornHello? ==> Lines(Bytes(c)) == []
    ensures !c.tail.TornHello? ==>
      Lines(Bytes(c)) == [Body(HelloLine(c))] + Bodies(RecordLines(c.first, c.entries)) + Closing(c)
  {
    hide IsLine, HelloLine, ByeLine, RecordLine, PartOf, Lines, Flatten, RecordLines, Body;
    RecordLinesAre(c.first, c.entries);
    ClosingLines(c);
    if !c.tail.TornHello? {
      var lines := RecordLines(c.first, c.entries);
      HelloLineIsLine(c);
      BytesAre(c);
      assert HelloLine(c) + Flatten(lines) + TailBytes(c) == HelloLine(c) + (Flatten(lines) + TailBytes(c));
      FirstLine(HelloLine(c), Flatten(lines) + TailBytes(c));
      LinesSplitBack(lines, TailBytes(c));
    }
  }

  lemma BytesAre(c: Connection)
    requires c.first > 0 && !c.tail.TornHello?
    ensures Bytes(c) == HelloLine(c) + Flatten(RecordLines(c.first, c.entries)) + TailBytes(c)
  {
    hide HelloLine, ByeLine, Flatten, RecordLines;
    var greeted := HelloLine(c) + Flatten(RecordLines(c.first, c.entries));
    assert greeted + "" == greeted;
  }

  /** Line i + 1 of a connection is its record i. */
  lemma RecordIsRead(c: Connection, i: nat)
    requires WellFormed(c) && i < |c.entries|
    ensures |Lines(Bytes(c))| > i + 1 && Lines(Bytes(c))[i + 1] == Body(RecordLine(c.first + i, c.entries[i]))
  {
    hide IsLine, HelloLine, Lines, RecordLines, RecordLine, Bytes, Body;
    ConnectionReads(c);
    RecordLinesAre(c.first, c.entries);
    TailIsNotHello(c);
  }

  /** The numbers read from a connection's records are consecutive from its first
      one on, in 64 bits, however long the records. */
  lemma NumbersAreConsecutive(c: Connection, i: nat)
    requires WellFormed(c) && i < |c.entries|
    ensures |Lines(Bytes(c))| > i + 1
    ensures ParseDecimal(LogRecords.Before(Lines(Bytes(c))[i + 1], '\t')) == Some((c.first + i) % U64)
  {
    hide Lines, Bytes, Body, LogRecords.Before, ParseDecimal, Content, Decimal, LineOf;
    var e := c.entries[i];
    RecordIsRead(c, i);
    TwentyDigits((c.first + i) % U64);
    NumberSurvives(MAX_LINE, (c.first + i) % U64, e.time, e.level, e.text);
  }

  /** Every field of a record is read back from its connection exactly when its line
      was not cut short. */
  lemma RecordsReadBack(c: Connection, i: nat)
    requires WellFormed(c) && i < |c.entries|
    ensures var e, number := c.entries[i], (c.first + i) % U64;
      && |Lines(Bytes(c))| > i + 1
      && (ParseRecord(Lines(Bytes(c))[i + 1]) == Some(Cleaned(number, e.time, e.level, e.text))
          <==> |Content(number, e.time, e.level, e.text)| + 2 <= MAX_LINE)
  {
    hide Lines, Bytes, Body, ParseRecord, Content, Cleaned, LineOf;
    var e := c.entries[i];
    RecordIsRead(c, i);
    RecordRoundTrip(MAX_LINE, (c.first + i) % U64, e.time, e.level, e.text);
  }

  lemma TailIsNotHello(c: Connection)
    requires WellFormed(c) && c.entries != []
    ensures !c.tail.TornHello?
  {
  }
}
