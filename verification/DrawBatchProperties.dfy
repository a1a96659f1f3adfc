/** What holds of every run of the chain. */
module DrawBatchProperties {
  import opened Words
  import opened CommandArenas
  import opened ArenaOwnership
  import opened DrawBatch
  import opened DrawBatchRuns

  ghost predicate LegalRun(w: World, ops: seq<Op>)
    decreases |ops|
  {
    Shaped(w.chain) && (ops != [] ==> Legal(w, ops[0]) && LegalRun(Step(w, ops[0]).0, ops[1..]))
  }

  ghost function Run(w: World, ops: seq<Op>): (end: World)
    requires LegalRun(w, ops)
    ensures Shaped(end.chain)
    decreases |ops|
  {
    if ops == [] then w else Run(Step(w, ops[0]).0, ops[1..])
  }

  lemma StartIsReachable(others: Ledger)
    requires Backed(others)
    ensures Reachable(Start(others), others)
  {
  }

  lemma {:induction false} RunKeeps(w: World, ops: seq<Op>, others: Ledger)
    requires Reachable(w, others) && LegalRun(w, ops)
    ensures Reachable(Run(w, ops), others)
    decreases |ops|
  {
    hide InService, OutOfService, Accounted;
    if ops != [] {
      StepKeeps(w, ops[0], others);
      RunKeeps(Step(w, ops[0]).0, ops[1..], others);
    }
  }

  // ----- stream refinement

  /** How many arenas hold words of the pass. */
  function Arenas(c: Chain): nat { if Writable(c) then c.count else c.closed }

  /** What is left of arena i when its acquire and its release are stripped. */
  function Payload(c: Chain, i: nat): seq<Word>
    requires Shaped(c) && i < Arenas(c)
    requires |c.memory[i]| == MEMORY_WORDS
    requires i < c.closed ==> ACQUIRE_WORDS + RELEASE_WORDS <= c.words[i] <= MEMORY_WORDS
    requires c.closed <= i ==> ACQUIRE_WORDS <= c.cursor.word
  {
    if i < c.closed then c.memory[i][ACQUIRE_WORDS..c.words[i] - RELEASE_WORDS]
    else c.memory[i][ACQUIRE_WORDS..c.cursor.word]
  }

  /** Every arena is long enough to be stripped and short enough to leave its
      label alone. */
  predicate WellSized(c: Chain) {
    && Shaped(c)
    && (forall i | 0 <= i < Arenas(c) :: |c.memory[i]| == MEMORY_WORDS)
    && (forall i | 0 <= i < c.closed :: ACQUIRE_WORDS + RELEASE_WORDS <= c.words[i] <= ARENA_WORDS)
    && (Writable(c) ==> ACQUIRE_WORDS <= c.cursor.word)
  }

  function StreamUpTo(c: Chain, n: nat): seq<Word>
    requires WellSized(c) && n <= Arenas(c)
  {
    if n == 0 then [] else StreamUpTo(c, n - 1) + Payload(c, n - 1)
  }

  /** The words the GPU executes between the acquires and the releases. */
  function Stream(c: Chain): seq<Word>
    requires WellSized(c)
  {
    StreamUpTo(c, Arenas(c))
  }

  lemma InServiceIsWellSized(c: Chain, parts: seq<seq<seq<Word>>>)
    requires InService(c, parts)
    ensures WellSized(c) && Arenas(c) == |parts|
    ensures forall i | 0 <= i < |parts| :: Payload(c, i) == Flatten(parts[i])
  {
    forall i | 0 <= i < |parts|
      ensures |c.memory[i]| == MEMORY_WORDS
      ensures i < c.closed ==> ACQUIRE_WORDS + RELEASE_WORDS <= c.words[i] <= ARENA_WORDS
      ensures i < c.closed ==> c.memory[i][ACQUIRE_WORDS..c.words[i] - RELEASE_WORDS] == Flatten(parts[i])
    {
      if i < c.closed {
        var packet := ReleasePacket(Label(c.slots[i]), c.serial);
        assert Framed(c.slots[i], c.memory[i], c.words[i], Flatten(parts[i]), c.serial);
        var whole := c.memory[i][..c.words[i]];
        assert whole == ACQUIRE + (Flatten(parts[i]) + packet);
        assert |whole| == ACQUIRE_WORDS + |Flatten(parts[i])| + RELEASE_WORDS;
        assert whole[ACQUIRE_WORDS..|whole| - RELEASE_WORDS] == Flatten(parts[i]);
      }
    }
    if Writable(c) {
      var whole := c.memory[c.closed][..c.cursor.word];
      assert whole == ACQUIRE + Flatten(parts[c.closed]);
      assert |whole| == ACQUIRE_WORDS + |Flatten(parts[c.closed])|;
      assert whole[ACQUIRE_WORDS..] == Flatten(parts[c.closed]);
    }
  }

  lemma {:induction false} StreamIsGroups(c: Chain, parts: seq<seq<seq<Word>>>, n: nat)
    requires WellSized(c) && Arenas(c) == |parts| && n <= |parts|
    requires forall i | 0 <= i < |parts| :: Payload(c, i) == Flatten(parts[i])
    ensures StreamUpTo(c, n) == Flatten(Flatten(parts[..n]))
  {
    if n > 0 {
      StreamIsGroups(c, parts, n - 1);
      FlattenGroups(parts, n);
    }
  }

  /** Stream refinement: until the chain is released, the arenas stripped of
      their framing and read in order are exactly the emissions in order, each
      of them whole inside one arena. */
  lemma StreamRefinement(others: Ledger, ops: seq<Op>)
    requires Backed(others) && LegalRun(Start(others), ops)
    ensures var w := Run(Start(others), ops);
            !w.released ==>
              && WellSized(w.chain)
              && Stream(w.chain) == Flatten(w.log)
              && |w.parts| == Arenas(w.chain) && Flatten(w.parts) == w.log
              && forall i | 0 <= i < |w.parts| :: Payload(w.chain, i) == Flatten(w.parts[i])
  {
    StartIsReachable(others);
    RunKeeps(Start(others), ops, others);
    var w := Run(Start(others), ops);
    if !w.released {
      InServiceIsWellSized(w.chain, w.parts);
      StreamIsGroups(w.chain, w.parts, |w.parts|);
      assert w.parts[..|w.parts|] == w.parts;
    }
  }

  // ----- what the calls of a run asked for

  /** What the callers have said since the chain was last opened: the serial they
      opened it with, and the most words they measured, at least 512. */
  datatype Asked = Asked(serial: Long, reserve: nat)

  function Noted(w: World, op: Op, asked: Asked): Asked {
    match op
    case DoOpen(serial, _) => if serial != 0 && w.chain.count == 0 then Asked(serial, 512) else asked
    case DoMeasured(words) => if words > asked.reserve then asked.(reserve := words) else asked
    case _ => asked
  }

  ghost function AskedBy(w: World, ops: seq<Op>, asked: Asked): Asked
    requires LegalRun(w, ops)
    decreases |ops|
  {
    if ops == [] then asked else AskedBy(Step(w, ops[0]).0, ops[1..], Noted(w, ops[0], asked))
  }

  /** The chain holds what it was asked for, once something has been created. */
  predicate Remembers(c: Chain, asked: Asked) {
    c.count > 0 ==> c.serial == asked.serial && c.reserve == asked.reserve
  }

  lemma StepRemembers(w: World, op: Op, asked: Asked)
    requires Shaped(w.chain) && Legal(w, op) && Remembers(w.chain, asked)
    ensures Remembers(Step(w, op).0.chain, Noted(w, op, asked))
  {
    hide Accounted, Repeat, Create, ReleaseFrom, Overwrite;
  }

  lemma {:induction false} RunRemembersFrom(w: World, ops: seq<Op>, asked: Asked)
    requires LegalRun(w, ops) && Remembers(w.chain, asked)
    ensures Remembers(Run(w, ops).chain, AskedBy(w, ops, asked))
    decreases |ops|
  {
    hide Step, Remembers, Noted;
    if ops != [] {
      StepRemembers(w, ops[0], asked);
      RunRemembersFrom(Step(w, ops[0]).0, ops[1..], Noted(w, ops[0], asked));
    }
  }

  ghost function AskedSinceStart(others: Ledger, ops: seq<Op>): Asked
    requires LegalRun(Start(others), ops)
  {
    AskedBy(Start(others), ops, Asked(0, 0))
  }

  /** Over every run the chain keeps the serial it was opened with, and its reserve
      is the largest emission measured since, or 512. */
  lemma RunRemembers(others: Ledger, ops: seq<Op>)
    requires LegalRun(Start(others), ops)
    ensures var c, asked := Run(Start(others), ops).chain, AskedSinceStart(others, ops);
            c.count > 0 ==> c.serial == asked.serial && c.reserve == asked.reserve
  {
    hide LegalRun, Run, AskedBy;
    RunRemembersFrom(Start(others), ops, Asked(0, 0));
  }

  // ----- submissions

  /** The words of one packet: its header and as many as the header counts. */
  function PacketWords(header: Word): nat { header / 0x1_0000 % 0x4000 + 2 }

  datatype Signal = Signal(address: nat, value: nat)

  /** What a release packet tells the GPU to write, and where: once the cache flush
      event 0x14 has gone through, 64 bits to memory. */
  function ReadSignal(ws: seq<Word>): Option<Signal> {
    if |ws| == 8 && PacketWords(ws[0]) == 8 && ws[..3] == [0xc006_4900, 0x0070_f514, 0x4201_0000] && ws[7] == 0 then
      Some(Signal(ws[3] + U32 * ws[4], ws[5] + U32 * ws[6]))
    else None
  }

  /** The acquire is two whole packets. */
  lemma AcquireIsPackets()
    ensures PacketWords(ACQUIRE[0]) == 2 && PacketWords(ACQUIRE[2]) == 8 && |ACQUIRE| == 10
  {
  }

  lemma ReleaseReadsBack(label_: nat, serial: nat)
    requires label_ < U64 && serial < U64
    ensures ReadSignal(ReleasePacket(label_, serial)) == Some(Signal(label_, serial))
  {
    HalvesRejoin(label_);
    HalvesRejoin(serial);
  }

  /** An arena that left the chain's hands: one whole submission in an aligned 128 KiB
      range, its last packet signalling the serial at the first word behind the
      commands, the label area still zero. */
  predicate Submission(c: Chain, i: nat, serial: nat)
    requires Shaped(c) && i < BATCH_MAX
  {
    var s, words := c.slots[i], c.words[i];
    && LabelClear(c.memory[i]) && ACQUIRE_WORDS + RELEASE_WORDS <= words <= ARENA_WORDS
    && c.memory[i][..ACQUIRE_WORDS] == ACQUIRE
    && ReadSignal(c.memory[i][words - RELEASE_WORDS..words]) == Some(Signal(s.address + 4 * ARENA_WORDS, serial))
    && serial != 0 && Live(s)
    && s.address % 0x1_0000 == 0 && 0 < s.address && s.address + 0x2_0000 <= 0x1_0000_0000_0000
  }

  lemma SealedIsSubmission(c: Chain, parts: seq<seq<seq<Word>>>, i: nat)
    requires InService(c, parts) && i < c.closed && c.serial < U64
    ensures Submission(c, i, c.serial)
  {
    var packet := ReleasePacket(Label(c.slots[i]), c.serial);
    assert Framed(c.slots[i], c.memory[i], c.words[i], Flatten(parts[i]), c.serial);
    var whole := c.memory[i][..c.words[i]];
    assert whole == ACQUIRE + (Flatten(parts[i]) + packet);
    assert whole[..ACQUIRE_WORDS] == ACQUIRE;
    assert whole[c.words[i] - RELEASE_WORDS..] == packet;
    assert Live(c.slots[i]);
    ReleaseReadsBack(Label(c.slots[i]), c.serial);
  }

  /** In every run each sealed arena is a submission that signals the serial the chain
      was opened with, and the open arena has not reached its label either. */
  lemma ArenasAreSubmissions(others: Ledger, ops: seq<Op>)
    requires Backed(others) && LegalRun(Start(others), ops)
    ensures var w := Run(Start(others), ops);
            var c := w.chain;
            !w.released ==>
              && (forall i | 0 <= i < c.closed :: Submission(c, i, AskedSinceStart(others, ops).serial))
              && (Writable(c) ==> LabelClear(c.memory[c.count - 1]))
  {
    hide Submission, Run, LegalRun, AskedBy;
    StartIsReachable(others);
    RunKeeps(Start(others), ops, others);
    RunRemembers(others, ops);
    var w := Run(Start(others), ops);
    if !w.released {
      forall i | 0 <= i < w.chain.closed ensures Submission(w.chain, i, AskedSinceStart(others, ops).serial) {
        SealedIsSubmission(w.chain, w.parts, i);
      }
    }
  }

  /** Once sealed, an arena is not touched again until the chain is released. */
  predicate SameArena(c: Chain, d: Chain, i: nat) {
    && Shaped(c) && Shaped(d) && i < BATCH_MAX
    && c.slots[i] == d.slots[i] && c.memory[i] == d.memory[i] && c.words[i] == d.words[i] && c.serial == d.serial
  }

  lemma ReserveFreezesSealed(c: Chain, l: Ledger, need: nat, r: CreateReply, i: nat)
    requires Shaped(c) && i < c.closed
    ensures var d := Reserve(c, l, need, r).chain; SameArena(c, d, i) && i < d.closed
  {
  }

  lemma StepFreezesSealed(w: World, op: Op, i: nat)
    requires Shaped(w.chain) && Legal(w, op) && !op.DoRelease? && !w.released && i < w.chain.closed
    ensures var w' := Step(w, op).0;
            SameArena(w.chain, w'.chain, i) && i < w'.chain.closed && !w'.released
  {
    if op.DoReserve? {
      ReserveFreezesSealed(w.chain, w.ledger, op.need, op.reply, i);
    } else if op.DoRetry? {
      ReserveFreezesSealed(w.chain, w.ledger, PAYLOAD_WORDS, op.reply, i);
    }
  }

  lemma {:induction false} SealedArenasNeverChange(w: World, ops: seq<Op>, i: nat)
    requires LegalRun(w, ops) && !w.released && i < w.chain.closed
    requires forall k | 0 <= k < |ops| :: !ops[k].DoRelease?
    ensures SameArena(w.chain, Run(w, ops).chain, i) && !Run(w, ops).released
    decreases |ops|
  {
    if ops != [] {
      StepFreezesSealed(w, ops[0], i);
      SealedArenasNeverChange(Step(w, ops[0]).0, ops[1..], i);
    }
  }
}
