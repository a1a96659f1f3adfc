/** The client side of a logging session (cts/ps5log.h): its counters, its
    connection, and the network it may lose at any byte. */
module LogClient {
  import opened LogFormat
  import opened LogRecords
  import opened LogSession
  import opened Words

  // ----- the network

  datatype Reply = Accepted(n: nat) | Interrupted | Failed

  /** Connections may be refused, and a send may be cut short, interrupted or fail;
      a call is interrupted finitely often. Every answer is noted. */
  class Network {
    var heard: seq<string>
    var signals: nat
    ghost var attempts: seq<bool>
    ghost var replies: seq<Reply>

    constructor (signals: nat)
      ensures heard == [] && this.signals == signals && attempts == [] && replies == []
    {
      heard, this.signals, attempts, replies := [], signals, [], [];
    }

    method Connect() returns (ok: bool)
      modifies this
      ensures heard == if ok then old(heard) + [""] else old(heard)
      ensures attempts == old(attempts) + [ok] && replies == old(replies)
    {
      ok := *;
      if ok {
        heard := heard + [""];
      }
      attempts := attempts + [ok];
    }

    method Send(data: string) returns (reply: Reply)
      requires heard != [] && data != ""
      modifies this
      ensures reply.Accepted? ==> reply.n <= |data| && heard == Extended(old(heard), data[..reply.n])
      ensures reply.Accepted? ==> signals == old(signals)
      ensures !reply.Accepted? ==> heard == old(heard)
      ensures reply.Interrupted? ==> signals < old(signals)
      ensures replies == old(replies) + [reply] && attempts == old(attempts)
    {
      var n: int := *;
      var accepted: bool := *;
      if accepted && 0 <= n <= |data| {
        heard := Extended(heard, data[..n]);
        reply := Accepted(n);
      } else if signals > 0 {
        signals := signals - 1;
        reply := Interrupted;
      } else {
        reply := Failed;
      }
      replies := replies + [reply];
    }
  }

  /** More bytes on the last connection. */
  function Extended(heard: seq<string>, data: string): seq<string>
    requires heard != []
  {
    heard[..|heard| - 1] + [heard[|heard| - 1] + data]
  }

  lemma ExtendedMore(heard: seq<string>, a: string, b: string)
    requires heard != []
    ensures Extended(Extended(heard, a), b) == Extended(heard, a + b)
  {
    assert heard[|heard| - 1] + a + b == heard[|heard| - 1] + (a + b);
  }

  /** A reply that ends a send. */
  predicate Fatal(reply: Reply) { reply.Failed? || (reply.Accepted? && reply.n == 0) }

  /** What a network answered since it had answered `before`: nothing fatal, or one
      fatal reply, the last. */
  predicate Went(before: seq<Reply>, after: seq<Reply>, ok: bool) {
    && before <= after
    && (forall i | |before| <= i < |after| - 1 :: !Fatal(after[i]))
    && (ok ==> after == before || !Fatal(after[|after| - 1]))
    && (!ok ==> after != before && Fatal(after[|after| - 1]))
  }

  /** Sends all the data, or a part of it and fails; it fails only if the network
      does. */
  method SendAll(net: Network, data: string) returns (ok: bool, ghost part: string)
    requires net.heard != []
    modifies net
    ensures net.heard == Extended(old(net.heard), part)
    ensures if ok then part == data else PartOf(part, data)
    ensures Went(old(net.replies), net.replies, ok) && net.attempts == old(net.attempts)
  {
    hide Extended;
    var sent := 0;
    assert data[..0] == "";
    ExtendedNothing(net.heard);
    while sent < |data|
      invariant sent <= |data| && net.heard != [] && net.heard == Extended(old(net.heard), data[..sent])
      invariant Went(old(net.replies), net.replies, true) && net.attempts == old(net.attempts)
      decreases |data| - sent, net.signals
    {
      var reply := net.Send(data[sent..]);
      if reply.Failed? || (reply.Accepted? && reply.n == 0) {
        if reply.Accepted? {
          assert data[sent..][..0] == "";
          ExtendedNothing(Extended(old(net.heard), data[..sent]));
        }
        return false, data[..sent];
      }
      if reply.Accepted? {
        ExtendedMore(old(net.heard), data[..sent], data[sent..][..reply.n]);
        assert data[..sent] + data[sent..][..reply.n] == data[..sent + reply.n];
        sent := sent + reply.n;
        ExtendedStays(old(net.heard), data[..sent]);
      }
    }
    assert data[..sent] == data;
    return true, data;
  }

  lemma ExtendedNothing(heard: seq<string>)
    requires heard != []
    ensures Extended(heard, "") == heard
  {
    assert heard[|heard| - 1] + "" == heard[|heard| - 1];
  }

  lemma ExtendedStays(heard: seq<string>, data: string)
    requires heard != []
    ensures Extended(heard, data) != []
  {
  }

  // ----- what the network has heard of a session

  function Stream(c: Connection): string { if c.first == 0 then "" else Bytes(c) }

  function Heard(history: seq<Connection>): (heard: seq<string>)
    ensures |heard| == |history|
  {
    if history == [] then [] else Heard(history[..|history| - 1]) + [Stream(history[|history| - 1])]
  }

  lemma HeardSnoc(history: seq<Connection>, c: Connection)
    ensures Heard(history + [c]) == Heard(history) + [Stream(c)]
  {
    assert (history + [c])[..|history|] == history;
  }

  /** A greeting, whole or in part, on a new connection. */
  lemma HeardGreeting(run: Run, h: Hello, resume: bool, part: string, whole: bool)
    requires whole ==> part == Greeting(h, resume, run.number + 1)
    ensures var next := Greet(run, h, resume, if whole then None else Some(part));
      Heard(next.history) == Extended(Heard(run.history) + [""], part)
  {
    hide Greeting;
    var next := Greet(run, h, resume, if whole then None else Some(part));
    HeardSnoc(run.history, Last(next));
    if whole { assert part + "" == part; }
    assert "" + part == part;
  }

  /** More bytes of the open connection. */
  lemma HeardMore(run: Run, c: Connection, part: string)
    requires run.history != [] && Stream(c) == Stream(Last(run)) + part
    ensures Heard(WithLast(run, c)) == Extended(Heard(run.history), part)
  {
    hide Stream;
    var front := run.history[..|run.history| - 1];
    assert run.history == front + [Last(run)];
    HeardSnoc(front, Last(run));
    HeardSnoc(front, c);
  }

  lemma HeardRecord(run: Run, e: Entry)
    requires Kept(run) && run.connected
    ensures Heard(Send(run, e).history) == Extended(Heard(run.history), RecordLine(run.number + 1, e))
  {
    hide Greeting, RecordLine, Heard, Extended, Kept;
    OpenConnection(run);
    var c := Last(run);
    var grown := Connection(c.hello, c.resume, c.first, c.entries + [e], c.tail);
    var more := RecordLine(c.first + |c.entries|, e);
    assert (c.entries + [e])[..|c.entries|] == c.entries;
    FlattenSnoc(RecordLines(c.first, c.entries), more);
    var hello, records := HelloLine(c), Flatten(RecordLines(c.first, c.entries));
    assert hello + (records + more) == hello + records + more;
    HeardMore(run, grown, more);
  }

  lemma HeardEnd(run: Run, tail: Tail, part: string)
    requires Kept(run) && run.connected
    requires match tail
      case TornRecord(_, torn) => torn == part
      case TornBye(_, torn) => torn == part
      case Bye(reason) => part == ByeLine(run.number, reason)
      case _ => false
    ensures Heard(End(run, tail).history) == Extended(Heard(run.history), part)
  {
    hide Greeting, RecordLine, ByeLine, Heard, Extended, RecordLines, Flatten, Kept;
    OpenConnection(run);
    var c := Last(run);
    HeardMore(run, Connection(c.hello, c.resume, c.first, c.entries, tail), part);
  }

  lemma NothingHeard()
    ensures Kept(FRESH) && Heard(FRESH.history) == []
  {
  }

  // ----- the logger

  /** The last attempt to connect came through. */
  ghost predicate Reached(net: Network)
    reads net
  {
    net.attempts != [] && net.attempts[|net.attempts| - 1]
  }

  /** Counting on in 64 bits. */
  lemma Counts(n: nat)
    ensures (n % U64 + 1) % U64 == (n + 1) % U64
  {
  }

  /** The counters are 64-bit ones and start again from zero behind the last. */
  class Logger {
    var connected: bool
    var initialized: bool
    var enabled: bool
    var server: bool
    var number: nat
    var sent: nat
    var dropped: nat
    var hello: Hello
    ghost var run: Run

    ghost predicate Valid(net: Network)
      reads this, net
    {
      && Tallied() && run.connected == connected
      && Kept(run) && net.heard == Heard(run.history) && hello.boot < U64
    }

    ghost predicate Tallied()
      reads this
    {
      number == run.number % U64 && sent == run.sent % U64 && dropped == run.dropped % U64
    }

    constructor (net: Network)
      requires net.heard == []
      ensures Valid(net) && run == FRESH && !initialized
    {
      hide Kept, Heard;
      connected, initialized, enabled, server, number, sent, dropped := false, false, false, false, 0, 0, 0;
      hello, run := Hello("", "", 0, ""), FRESH;
      new;
      NothingHeard();
    }

    /** The greeting of a connection that has just been opened. */
    method SendHello(net: Network, resume: bool) returns (ok: bool, ghost part: Option<string>)
      requires Tallied() && !run.connected && connected
      requires Kept(run) && net.heard == Heard(run.history) + [""] && hello.boot < U64
      modifies this, net
      ensures Valid(net) && run == Greet(old(run), hello, resume, part) && ok == connected == part.None?
      ensures Went(old(net.replies), net.replies, ok) && net.attempts == old(net.attempts)
      ensures unchanged(this`number, this`sent, this`dropped, this`hello, this`initialized, this`enabled, this`server)
    {
      hide Kept, Heard, Extended, HelloContent;
      Counts(run.number);
      var line := new char[HELLO_LINE];
      var n := FormatHello(line, HELLO_LINE, hello, resume, (number + 1) % U64);
      ghost var bytes;
      ok, bytes := SendAll(net, line[..n]);
      part := if ok then None else Some(bytes);
      HeardGreeting(run, hello, resume, bytes, ok);
      GreetKeeps(run, hello, resume, part);
      run := Greet(run, hello, resume, part);
      if !ok {
        connected := false;
      }
    }

    /** A new run: an open connection says goodbye first. */
    method Init(net: Network, enabled': bool, server': bool, hello': Hello)
        returns (rc: int, ghost part: Option<string>, ghost bye: Tail)
      requires Valid(net) && hello'.boot < U64
      modifies this, net
      ensures Valid(net) && initialized && hello == hello' && (rc == 0 <==> connected)
      ensures number == sent == dropped == 0
      ensures net.attempts == old(net.attempts) + if enabled' && server' then [Reached(net)] else []
      ensures var ended := if old(connected) then End(old(run), bye) else old(run);
        run == if enabled' && server' && Reached(net) then Greet(Reset(ended), hello', false, part) else Reset(ended)
      ensures rc == 0 <==> enabled' && server' && Reached(net) && part.None?
      ensures old(connected) ==> bye == Bye("reinit") || bye.TornBye?
      ensures !old(connected) && enabled' && server' && Reached(net) ==>
        Went(old(net.replies), net.replies, part.None?)
    {
      hide Kept, Heard;
      part, bye := None, Open;
      if connected {
        bye := Close(net, "reinit");
      }
      ResetKeeps(run);
      run := Reset(run);
      number, sent, dropped := 0, 0, 0;
      hello, enabled, server, initialized := hello', enabled', server', true;
      if !enabled || !server {
        return 1, part, bye;
      }
      connected := net.Connect();
      if !connected {
        return 1, part, bye;
      }
      var ok;
      ok, part := SendHello(net, false);
      rc := if ok then 0 else 1;
    }

    /** One record. It takes the next number whether or not it is delivered. */
    method Line(net: Network, time: nat, level: string, text: string) returns (rc: int, ghost part: string)
      requires Valid(net) && time < U64
      modifies this, net
      ensures Valid(net) && number == (old(number) + 1) % U64
      ensures unchanged(this`hello, this`initialized, this`enabled, this`server)
      ensures rc == 0 ==> old(connected) && run == Send(old(run), Entry(time, level, text))
      ensures old(connected) ==> Went(old(net.replies), net.replies, rc == 0)
      ensures net.attempts == old(net.attempts) && (!old(connected) ==> net.replies == old(net.replies))
      ensures rc != 0 && old(connected) ==> run == Drop(End(old(run), TornRecord(Entry(time, level, text), part)))
      ensures rc != 0 && !old(connected) ==> run == Drop(old(run))
    {
      hide Kept, Heard, Extended, Content;
      var line := new char[MAX_LINE];
      Counts(run.number); Counts(run.sent); Counts(run.dropped);
      number, part := (number + 1) % U64, "";
      var n := FormatRecord(line, MAX_LINE, number, time, level, text);
      if !connected {
        DropKeeps(run);
        run, dropped := Drop(run), (dropped + 1) % U64;
        return -1, part;
      }
      ghost var e := Entry(time, level, text);
      HistoryNotEmpty(run);
      var ok;
      ok, part := SendAll(net, line[..n]);
      if !ok {
        HeardEnd(run, TornRecord(e, part), part);
        TornRecordKeeps(run, e, part);
        run, dropped, connected := Drop(End(run, TornRecord(e, part))), (dropped + 1) % U64, false;
        return -1, part;
      }
      HeardRecord(run, e);
      SendKeeps(run, e);
      run, sent := Send(run, e), (sent + 1) % U64;
      rc := 0;
    }

    /** Connects again, under the same identity, where the numbers left off. */
    method Reconnect(net: Network) returns (rc: int, ghost part: Option<string>)
      requires Valid(net)
      modifies this, net
      ensures Valid(net)
      ensures unchanged(this`number, this`sent, this`dropped, this`hello, this`initialized, this`enabled, this`server)
      ensures rc == 0 <==> initialized && connected
      ensures rc == -1 <==> !initialized
      ensures var tried := initialized && !old(connected) && enabled && server;
        && net.attempts == old(net.attempts) + (if tried then [Reached(net)] else [])
        && run == (if tried && Reached(net) then Greet(old(run), hello, true, part) else old(run))
        && (tried && Reached(net) ==> Went(old(net.replies), net.replies, part.None?))
    {
      hide Kept, Heard;
      part := None;
      if !initialized {
        return -1, part;
      }
      if connected {
        return 0, part;
      }
      if !enabled || !server {
        return 1, part;
      }
      connected := net.Connect();
      if !connected {
        return 1, part;
      }
      var ok;
      ok, part := SendHello(net, true);
      rc := if ok then 0 else 1;
    }

    /** Says goodbye, as far as the network takes it, and hangs up. */
    method Close(net: Network, reason: string) returns (ghost bye: Tail)
      requires Valid(net)
      modifies this, net
      ensures Valid(net) && !connected
      ensures unchanged(this`number, this`sent, this`dropped, this`hello, this`initialized, this`enabled, this`server)
      ensures run == if old(connected) then End(old(run), bye) else old(run)
      ensures old(connected) ==> bye == Bye(reason) || (bye.TornBye? && bye.reason == reason)
      ensures net.attempts == old(net.attempts)
      ensures old(connected) ==> Went(old(net.replies), net.replies, bye.Bye?)
    {
      hide Kept, Heard, Extended, ByeContent;
      bye := Open;
      if connected {
        HistoryNotEmpty(run);
        var line := new char[BYE_LINE];
        var n := FormatBye(line, BYE_LINE, number, reason);
        var ok;
        ghost var part;
        ok, part := SendAll(net, line[..n]);
        bye := if ok then Bye(reason) else TornBye(reason, part);
        HeardEnd(run, bye, part);
        ByeKeeps(run, bye, part);
        run, connected := End(run, bye), false;
      }
    }
  }

  lemma HistoryNotEmpty(run: Run)
    requires Kept(run) && run.connected
    ensures run.history != [] && Heard(run.history) != []
  {
  }

  lemma TornRecordKeeps(run: Run, e: Entry, part: string)
    requires Kept(run) && run.connected && PartOf(part, RecordLine(run.number + 1, e))
    ensures Kept(Drop(End(run, TornRecord(e, part))))
  {
    OpenConnection(run);
    hide Kept;
    EndKeeps(run, TornRecord(e, part));
    DropKeeps(End(run, TornRecord(e, part)));
  }

  lemma ByeKeeps(run: Run, bye: Tail, part: string)
    requires Kept(run) && run.connected
    requires bye.Bye? || (bye.TornBye? && bye.part == part && PartOf(part, ByeLine(run.number, bye.reason)))
    ensures Kept(End(run, bye))
  {
    OpenConnection(run);
    hide Kept;
    EndKeeps(run, bye);
  }
}
