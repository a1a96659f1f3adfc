/** Register writes grouped into SET_CONTEXT_REG packets (native/draw_emit_ps5.c):
    the greedy grouping, its encoder, and the packets' meaning. */
module ContextRegisters {
  import opened Words

  datatype Register = Register(offset: Word, value: Word)

  const SET_CONTEXT_REG: nat := 0xc000_6900
  /** The payload length of a packet is a fourteen-bit field. */
  const RUN_LIMIT: nat := 0x4000

  // ----- greedy runs

  /** An offset k places on, in 32-bit arithmetic. */
  function Plus(offset: Word, k: nat): Word { (offset + k) % U32 }

  lemma PlusPlus(offset: Word, j: nat, k: nat)
    ensures Plus(Plus(offset, j), k) == Plus(offset, j + k)
  {
  }

  lemma PlusZero(offset: Word)
    ensures Plus(offset, 0) == offset
  {
  }

  /** Registers at consecutive offsets, as 32-bit arithmetic counts them. */
  predicate Consecutive(rs: seq<Register>) {
    forall k | 0 <= k < |rs| :: rs[k].offset == Plus(rs[0].offset, k)
  }

  /** Having found n consecutive registers at the front, how many there are. */
  function Longest(rs: seq<Register>, n: nat): (run: nat)
    requires 0 < n <= |rs|
    ensures n <= run <= |rs|
    decreases |rs| - n
  {
    if n < |rs| && rs[n].offset == Plus(rs[0].offset, n) then Longest(rs, n + 1) else n
  }

  /** The list cut into its greedy runs. */
  function Runs(rs: seq<Register>): seq<seq<Register>> {
    if rs == [] then [] else [rs[..Longest(rs, 1)]] + Runs(rs[Longest(rs, 1)..])
  }

  // ----- packets

  /** The run length is shifted into the header and joined to it by a bitwise or;
      bits 14 and 15 of the length meet the header's own top bits, which are set,
      and higher ones are shifted out. */
  function Header(n: nat): Word { SET_CONTEXT_REG + n % RUN_LIMIT * 0x1_0000 }

  function Values(rs: seq<Register>): (vs: seq<Word>)
    ensures |vs| == |rs|
  {
    seq(|rs|, i requires 0 <= i < |rs| => rs[i].value)
  }

  function Packet(run: seq<Register>): (ws: seq<Word>)
    requires run != []
    ensures |ws| == |run| + 2
  {
    [Header(|run|), run[0].offset] + Values(run)
  }

  function Packets(rs: seq<Register>): seq<Word> {
    if rs == [] then [] else Packet(rs[..Longest(rs, 1)]) + Packets(rs[Longest(rs, 1)..])
  }

  /** Two words a run and one a register. */
  lemma {:induction false} PacketsLength(rs: seq<Register>)
    ensures |Packets(rs)| == |rs| + 2 * |Runs(rs)|
    decreases |rs|
  {
    if rs != [] { PacketsLength(rs[Longest(rs, 1)..]); }
  }

  // ----- cutting a list into packets

  /** A way to cut the list, in order, into runs of consecutive offsets. */
  ghost predicate IsCut(cut: seq<seq<Register>>, rs: seq<Register>) {
    && Flatten(cut) == rs
    && forall i | 0 <= i < |cut| :: cut[i] != [] && Consecutive(cut[i])
  }

  /** The least number of runs: one more than the gaps between neighbours. */
  function Pieces(rs: seq<Register>): nat {
    if rs == [] then 0
    else if |rs| == 1 || rs[1].offset != Plus(rs[0].offset, 1) then 1 + Pieces(rs[1..])
    else Pieces(rs[1..])
  }

  lemma {:induction false} LongestIsConsecutive(rs: seq<Register>, n: nat)
    requires 0 < n <= |rs| && Consecutive(rs[..n])
    ensures Consecutive(rs[..Longest(rs, n)])
    ensures Longest(rs, n) < |rs| ==> rs[Longest(rs, n)].offset != Plus(rs[0].offset, Longest(rs, n))
    decreases |rs| - n
  {
    hide Plus;
    if n < |rs| && rs[n].offset == Plus(rs[0].offset, n) {
      assert rs[..n + 1] == rs[..n] + [rs[n]];
      LongestIsConsecutive(rs, n + 1);
    }
  }

  lemma TailConsecutive(rs: seq<Register>)
    requires |rs| > 1 && Consecutive(rs)
    ensures Consecutive(rs[1..]) && rs[1].offset == Plus(rs[0].offset, 1)
  {
    hide Plus;
    forall k | 0 <= k < |rs| - 1 ensures rs[1..][k].offset == Plus(rs[1..][0].offset, k) {
      assert rs[1..][k] == rs[k + 1];
      PlusPlus(rs[0].offset, 1, k);
    }
  }

  /** A run in front of a list saves nothing unless it can be joined to it. */
  lemma {:induction false} RunAndRest(run: seq<Register>, rest: seq<Register>)
    requires run != [] && Consecutive(run)
    ensures Pieces(run + rest) <= 1 + Pieces(rest)
    ensures rest == [] || rest[0].offset != Plus(run[0].offset, |run|) ==> Pieces(run + rest) == 1 + Pieces(rest)
    decreases |run|
  {
    hide Plus;
    var all := run + rest;
    if |run| == 1 {
      assert all[1..] == rest;
    } else {
      TailConsecutive(run);
      RunAndRest(run[1..], rest);
      assert all[1..] == run[1..] + rest && all[1] == run[1];
      PlusPlus(run[0].offset, 1, |run| - 1);
    }
  }

  lemma FirstRun(rs: seq<Register>)
    requires rs != []
    ensures Consecutive(rs[..Longest(rs, 1)])
    ensures Pieces(rs) == 1 + Pieces(rs[Longest(rs, 1)..])
  {
    hide Plus;
    var n := Longest(rs, 1);
    PlusZero(rs[0].offset);
    LongestIsConsecutive(rs, 1);
    RunAndRest(rs[..n], rs[n..]);
    assert rs[..n] + rs[n..] == rs;
  }

  /** The greedy runs are such a cut, with the least number of pieces. */
  lemma {:induction false} RunsAreACut(rs: seq<Register>)
    ensures IsCut(Runs(rs), rs) && |Runs(rs)| == Pieces(rs)
    decreases |rs|
  {
    hide Plus, Consecutive, Longest;
    if rs != [] {
      var n := Longest(rs, 1);
      FirstRun(rs);
      RunsAreACut(rs[n..]);
      FlattenFirst(rs[..n], Runs(rs[n..]));
      assert rs[..n] + rs[n..] == rs;
    }
  }

  lemma FlattenFirst<T>(first: seq<T>, rest: seq<seq<T>>)
    ensures Flatten([first] + rest) == first + Flatten(rest)
  {
    FlattenAppend([first], rest);
    assert Flatten([first]) == Flatten<T>([]) + first == first by {
      FlattenSnoc([], first);
      assert [] + [first] == [first];
    }
  }

  lemma {:induction false} NoCutIsSmaller(cut: seq<seq<Register>>, rs: seq<Register>)
    requires IsCut(cut, rs)
    ensures Pieces(rs) <= |cut|
    decreases |cut|
  {
    hide Plus;
    if cut != [] {
      FlattenFirst(cut[0], cut[1..]);
      assert [cut[0]] + cut[1..] == cut;
      NoCutIsSmaller(cut[1..], Flatten(cut[1..]));
      RunAndRest(cut[0], Flatten(cut[1..]));
    }
  }

  /** Greedy grouping is optimal: no other cut of the list into packets has fewer
      packets, nor takes fewer words. */
  lemma GreedyIsOptimal(cut: seq<seq<Register>>, rs: seq<Register>)
    requires IsCut(cut, rs)
    ensures IsCut(Runs(rs), rs) && |Runs(rs)| <= |cut|
    ensures |Packets(rs)| <= |rs| + 2 * |cut|
  {
    RunsAreACut(rs);
    NoCutIsSmaller(cut, rs);
    PacketsLength(rs);
  }

  // ----- reading packets back

  /** The payload length a header announces. */
  function Announced(header: Word): nat { header / 0x1_0000 % RUN_LIMIT }

  predicate StartsWithPacket(ws: seq<Word>) {
    && |ws| >= 2 && ws[0] % 0x1_0000 == 0x6900 && ws[0] / 0x4000_0000 == 3
    && |ws| >= 2 + Announced(ws[0])
  }

  /** The registers one packet writes: consecutive ones from its base offset on. */
  function Written(base: Word, values: seq<Word>): (rs: seq<Register>)
    ensures |rs| == |values| && Values(rs) == values
    ensures Consecutive(rs)
  {
    PlusZero(base);
    seq(|values|, i requires 0 <= i < |values| => Register(Plus(base, i), values[i]))
  }

  function FirstWritten(ws: seq<Word>): (rs: seq<Register>)
    requires StartsWithPacket(ws)
    ensures |rs| == Announced(ws[0]) && Consecutive(rs)
  {
    Written(ws[1], ws[2..2 + Announced(ws[0])])
  }

  function Decode(ws: seq<Word>): Option<seq<Register>> {
    if ws == [] then Some([])
    else if !StartsWithPacket(ws) then None
    else
      var rest := Decode(ws[2 + Announced(ws[0])..]);
      if rest.None? then None else Some(FirstWritten(ws) + rest.value)
  }

  lemma HeaderAnnounces(n: nat)
    ensures Announced(Header(n)) == n % RUN_LIMIT
    ensures Header(n) % 0x1_0000 == 0x6900 && Header(n) / 0x4000_0000 == 3
  {
  }

  lemma WrittenBack(run: seq<Register>)
    requires run != [] && Consecutive(run)
    ensures Written(run[0].offset, Values(run)) == run
  {
    hide Plus;
    forall i | 0 <= i < |run| ensures Written(run[0].offset, Values(run))[i] == run[i] {
      assert run[i].offset == Plus(run[0].offset, i);
    }
  }

  lemma PacketStarts(run: seq<Register>, rest: seq<Word>)
    requires 0 < |run| < RUN_LIMIT
    ensures StartsWithPacket(Packet(run) + rest) && Announced((Packet(run) + rest)[0]) == |run|
  {
    hide Header, Announced, Values;
    HeaderAnnounces(|run|);
  }

  lemma PacketParts(run: seq<Register>, rest: seq<Word>)
    requires run != []
    ensures var ws := Packet(run) + rest;
            ws[1] == run[0].offset && ws[2..2 + |run|] == Values(run) && ws[2 + |run|..] == rest
  {
    hide Header;
  }

  lemma PacketDecodes(run: seq<Register>, rest: seq<Word>)
    requires 0 < |run| < RUN_LIMIT && Consecutive(run)
    ensures Decode(Packet(run) + rest) == if Decode(rest).None? then None else Some(run + Decode(rest).value)
  {
    hide Plus, Announced, Consecutive, Packet, Values, Written, StartsWithPacket;
    PacketStarts(run, rest);
    PacketParts(run, rest);
    WrittenBack(run);
  }

  /** Whatever words decode to a list, they are at least as many as the greedy
      packets of that list. */
  lemma {:induction false} DecodedTakesWords(ws: seq<Word>)
    requires Decode(ws).Some?
    ensures |ws| >= |Decode(ws).value| + 2 * Pieces(Decode(ws).value)
    decreases |ws|
  {
    hide Plus;
    if ws != [] {
      var first, rest := FirstWritten(ws), ws[2 + Announced(ws[0])..];
      DecodedTakesWords(rest);
      if first != [] {
        RunAndRest(first, Decode(rest).value);
      } else {
        assert first + Decode(rest).value == Decode(rest).value;
      }
    }
  }

  /** Every run fits the payload length field. */
  predicate RunsFit(rs: seq<Register>) { forall i | 0 <= i < |Runs(rs)| :: |Runs(rs)[i]| < RUN_LIMIT }

  lemma RunsFitTail(rs: seq<Register>)
    requires rs != []
    ensures RunsFit(rs) <==> Longest(rs, 1) < RUN_LIMIT && RunsFit(rs[Longest(rs, 1)..])
  {
    var n := Longest(rs, 1);
    var tail := Runs(rs[n..]);
    assert Runs(rs)[0] == rs[..n];
    assert forall i | 0 <= i < |tail| :: Runs(rs)[i + 1] == tail[i];
    if n < RUN_LIMIT && RunsFit(rs[n..]) {
      forall i | 0 <= i < |Runs(rs)| ensures |Runs(rs)[i]| < RUN_LIMIT {
        if i > 0 { assert Runs(rs)[i] == tail[i - 1]; }
      }
    }
  }

  /** A run too long for its header is never read back. */
  lemma LongRunIsLost(rs: seq<Register>)
    requires rs != [] && Longest(rs, 1) >= RUN_LIMIT
    ensures Decode(Packets(rs)) != Some(rs)
  {
    hide Plus;
    hide Header, Announced;
    var n := Longest(rs, 1);
    var m := n % RUN_LIMIT;
    var ws := Packets(rs);
    HeaderAnnounces(n);
    PacketsLength(rs);
    RunsAreACut(rs);
    FirstRun(rs);
    SuffixPieces(rs, m, n);
    assert ws[0] == Header(n);
    var rest := ws[2 + m..];
    if Decode(ws) == Some(rs) {
      DecodedTail(ws, rs, m);
      DecodedTakesWords(rest);
      assert false;
    }
  }

  lemma DecodedTail(ws: seq<Word>, rs: seq<Register>, m: nat)
    requires StartsWithPacket(ws) && Announced(ws[0]) == m && Decode(ws) == Some(rs)
    ensures m <= |rs| && Decode(ws[2 + m..]) == Some(rs[m..])
  {
    hide Announced, FirstWritten, Consecutive;
    AfterPrefix(FirstWritten(ws), Decode(ws[2 + m..]).value);
  }

  lemma AfterPrefix<T>(a: seq<T>, b: seq<T>)
    ensures (a + b)[|a|..] == b
  {
  }

  /** Dropping part of the first run drops no piece. */
  lemma {:induction false} SuffixPieces(rs: seq<Register>, m: nat, n: nat)
    requires m < n <= |rs| && Consecutive(rs[..n])
    ensures Pieces(rs[m..]) == Pieces(rs)
    decreases m
  {
    hide Plus;
    if m > 0 {
      TailConsecutive(rs[..n]);
      assert rs[1..][..n - 1] == rs[..n][1..];
      SuffixPieces(rs[1..], m - 1, n - 1);
      assert rs[1..][m - 1..] == rs[m..];
    } else {
      assert rs[0..] == rs;
    }
  }

  /** The packets decode to the list they were made from exactly when no run is
      too long for its header. */
  lemma {:induction false} RoundTrip(rs: seq<Register>)
    ensures Decode(Packets(rs)) == Some(rs) <==> RunsFit(rs)
    decreases |rs|
  {
    hide Plus, Packet, Longest;
    if rs != [] {
      var n := Longest(rs, 1);
      RunsFitTail(rs);
      FirstRun(rs);
      if n >= RUN_LIMIT {
        LongRunIsLost(rs);
      } else {
        RoundTrip(rs[n..]);
        PacketDecodes(rs[..n], Packets(rs[n..]));
        assert rs[..n] + rs[n..] == rs;
        if Decode(Packets(rs)) == Some(rs) {
          var tail := Decode(Packets(rs[n..])).value;
          AfterPrefix(rs[..n], tail);
        }
      }
    }
  }

  lemma {:induction false} ShortListsFit(rs: seq<Register>)
    requires |rs| < RUN_LIMIT
    ensures RunsFit(rs)
    decreases |rs|
  {
    if rs != [] {
      RunsFitTail(rs);
      ShortListsFit(rs[Longest(rs, 1)..]);
    }
  }

  // ----- the register file

  type File = map<Word, Word>

  /** Writing the registers one by one. */
  function Apply(file: File, rs: seq<Register>): File
    decreases |rs|
  {
    if rs == [] then file else Apply(file[rs[0].offset := rs[0].value], rs[1..])
  }

  /** One packet: its values to consecutive registers. */
  function Set(file: File, base: Word, values: seq<Word>): File
    decreases |values|
  {
    if values == [] then file else Set(file[base := values[0]], Plus(base, 1), values[1..])
  }

  /** The packets, one after another, as the command processor takes them; words
      that are no packet end it. */
  function Execute(file: File, ws: seq<Word>): File
    decreases |ws|
  {
    if !StartsWithPacket(ws) then file
    else Execute(Set(file, ws[1], ws[2..2 + Announced(ws[0])]), ws[2 + Announced(ws[0])..])
  }

  lemma {:induction false} ApplyAppend(file: File, a: seq<Register>, b: seq<Register>)
    ensures Apply(file, a + b) == Apply(Apply(file, a), b)
    decreases |a|
  {
    if a == [] {
      assert a + b == b;
    } else {
      ApplyAppend(file[a[0].offset := a[0].value], a[1..], b);
      assert (a + b)[1..] == a[1..] + b;
    }
  }

  lemma {:induction false} SetIsApply(file: File, base: Word, values: seq<Word>)
    ensures Set(file, base, values) == Apply(file, Written(base, values))
    decreases |values|
  {
    hide Plus;
    if values != [] {
      PlusZero(base);
      var rs, tail := Written(base, values), Written(Plus(base, 1), values[1..]);
      SetIsApply(file[base := values[0]], Plus(base, 1), values[1..]);
      forall i | 0 <= i < |tail| ensures rs[1..][i] == tail[i] {
        PlusPlus(base, 1, i);
      }
      assert rs[1..] == tail;
    }
  }

  lemma {:induction false} ExecuteDecoded(file: File, ws: seq<Word>)
    requires Decode(ws).Some?
    ensures Execute(file, ws) == Apply(file, Decode(ws).value)
    decreases |ws|
  {
    hide Plus;
    if ws != [] {
      var values, rest := ws[2..2 + Announced(ws[0])], ws[2 + Announced(ws[0])..];
      SetIsApply(file, ws[1], values);
      ExecuteDecoded(Set(file, ws[1], values), rest);
      ApplyAppend(file, FirstWritten(ws), Decode(rest).value);
    }
  }

  /** Executing the packets is writing the registers one by one. */
  lemma PacketsWriteTheList(file: File, rs: seq<Register>)
    requires RunsFit(rs)
    ensures Execute(file, Packets(rs)) == Apply(file, rs)
  {
    RoundTrip(rs);
    ExecuteDecoded(file, Packets(rs));
  }

  // ----- the encoder

  /** The words the packets take, two for each run and one for each register. */
  function WordCount(rs: seq<Register>): nat { |Packets(rs)| }

  /** How many registers from index `at` on are consecutive. */
  method MeasureRun(rs: seq<Register>, at: nat) returns (run: nat)
    requires at < |rs|
    ensures 0 < run <= |rs| - at && run == Longest(rs[at..], 1)
  {
    hide Plus;
    run := 1;
    while at + run < |rs| && rs[at + run].offset == Plus(rs[at].offset, run)
      invariant 0 < run <= |rs| - at
      invariant Longest(rs[at..], run) == Longest(rs[at..], 1)
    {
      run := run + 1;
    }
  }

  lemma NextRun(rs: seq<Register>, at: nat, run: nat)
    requires at < |rs| && 0 < run <= |rs| - at && run == Longest(rs[at..], 1)
    ensures Packets(rs[at..]) == Packet(rs[at..at + run]) + Packets(rs[at + run..])
  {
    assert rs[at..][..run] == rs[at..at + run];
    assert rs[at..][run..] == rs[at + run..];
  }

  /** The words an emission takes, counted in 32 bits. */
  method ContextRunWords(rs: seq<Register>) returns (words: Word)
    ensures words == WordCount(rs) % U32
  {
    hide Packet, Longest;
    words := 0;
    var emitted := 0;
    ghost var counted := 0;
    while emitted < |rs|
      invariant emitted <= |rs|
      invariant counted + |Packets(rs[emitted..])| == |Packets(rs)| && words == counted % U32
    {
      var run := MeasureRun(rs, emitted);
      NextRun(rs, emitted, run);
      Plus32(counted, run + 2);
      words := (words + (run + 2)) % U32;
      counted := counted + run + 2;
      emitted := emitted + run;
    }
  }

  lemma Plus32(a: nat, b: nat)
    ensures (a % U32 + b) % U32 == (a + b) % U32
  {
  }

  /** Writes the run's packet from out[next] on. */
  method WritePacket(out: array<Word>, next: nat, rs: seq<Register>, at: nat, run: nat)
    requires 0 < run <= |rs| - at && at < |rs| && next + run + 2 <= out.Length
    modifies out
    ensures out[..] == Overwrite(old(out[..]), next, Packet(rs[at..at + run]))
  {
    hide Header;
    out[next], out[next + 1] := Header(run), rs[at].offset;
    ghost var packet := Packet(rs[at..at + run]);
    var k := 0;
    while k < run
      invariant k <= run
      invariant out[..] == Overwrite(old(out[..]), next, packet[..2 + k])
    {
      WriteOne(out, next, packet, k, old(out[..]), rs[at + k].value);
      k := k + 1;
    }
    assert packet[..2 + k] == packet;
  }

  method WriteOne(out: array<Word>, next: nat, ghost packet: seq<Word>, k: nat, ghost before: seq<Word>, value: Word)
    requires 2 + k < |packet| && next + |packet| <= out.Length == |before| && value == packet[2 + k]
    requires out[..] == Overwrite(before, next, packet[..2 + k])
    modifies out
    ensures out[..] == Overwrite(before, next, packet[..2 + k + 1])
  {
    out[next + 2 + k] := value;
    assert packet[..2 + k + 1] == packet[..2 + k] + [value];
  }

  lemma OverwriteAfter(memory: seq<Word>, at: nat, a: seq<Word>, b: seq<Word>)
    requires at + |a| + |b| <= |memory|
    ensures Overwrite(Overwrite(memory, at, a), at + |a|, b) == Overwrite(memory, at, a + b)
  {
  }

  lemma OverwriteNothing(memory: seq<Word>, at: nat)
    requires at <= |memory|
    ensures Overwrite(memory, at, []) == memory
  {
  }

  /** The emission: refused, or too long and nothing is written, or exactly the
      packets of the list, the cursor behind them. The room is compared with a
      32-bit count of the words: what the comparison lets through must fit. */
  method EmitContextRuns(out: array<Word>, cursor: nat, capacity: nat, rs: seq<Register>)
      returns (rc: VkResult, next: nat)
    requires WordCount(rs) % U32 > capacity || cursor + WordCount(rs) <= out.Length
    modifies out
    ensures rc == if rs == [] then Unknown else if WordCount(rs) % U32 > capacity then OutOfHostMemory else Success
    ensures rc != Success ==> next == cursor && out[..] == old(out[..])
    ensures rc == Success ==> next == cursor + WordCount(rs) && out[..] == Overwrite(old(out[..]), cursor, Packets(rs))
  {
    hide Packet, Longest, Overwrite;
    if rs == [] {
      return Unknown, cursor;
    }
    var words := ContextRunWords(rs);
    if words > capacity {
      return OutOfHostMemory, cursor;
    }
    next := cursor;
    var emitted := 0;
    ghost var done: seq<Word> := [];
    OverwriteNothing(out[..], cursor);
    while emitted < |rs|
      invariant emitted <= |rs| && done + Packets(rs[emitted..]) == Packets(rs)
      invariant next == cursor + |done| && out[..] == Overwrite(old(out[..]), cursor, done)
    {
      var run := MeasureRun(rs, emitted);
      NextRun(rs, emitted, run);
      WritePacket(out, next, rs, emitted, run);
      ghost var packet := Packet(rs[emitted..emitted + run]);
      OverwriteAfter(old(out[..]), cursor, done, packet);
      next, emitted, done := next + run + 2, emitted + run, done + packet;
    }
    assert done + [] == done;
    rc := Success;
  }
}
