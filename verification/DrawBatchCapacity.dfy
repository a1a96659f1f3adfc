/** Room: when sealing can fail, when arenas are split, and how much a chain holds. */
module DrawBatchCapacity {
  import opened Words
  import opened CommandArenas
  import opened ArenaOwnership
  import opened DrawBatch
  import opened DrawBatchRuns
  import opened DrawBatchProperties

  // ----- the release tail

  /** An emission that fits leaves the release tail free. */
  predicate LeavesTail(w: World, op: Op) {
    op.DoEmit? && Writable(w.chain) ==> |op.ws| + TAIL_WORDS <= Room(w.chain) || |op.ws| > Room(w.chain)
  }

  ghost predicate PoliteRun(w: World, ops: seq<Op>)
    requires LegalRun(w, ops)
    decreases |ops|
  {
    ops != [] ==> LeavesTail(w, ops[0]) && PoliteRun(Step(w, ops[0]).0, ops[1..])
  }

  predicate TailFree(w: World) { Writable(w.chain) && !w.released ==> Room(w.chain) >= TAIL_WORDS }

  lemma StepKeepsTail(w: World, op: Op, others: Ledger)
    requires Reachable(w, others) && Legal(w, op) && TailFree(w) && LeavesTail(w, op)
    ensures TailFree(Step(w, op).0)
  {
    var c := w.chain;
    if op.DoOpen? {
      if op.serial != 0 && c.count == 0 {
        OpenedHasRoom(c, w.ledger, op.serial, op.reply, others);
      }
    } else if op.DoReserve? && !w.released {
      ReserveKeepsTail(c, w.ledger, op.need, op.reply, w.parts, others);
    } else if op.DoRetry? && !w.released {
      ReserveKeepsTail(c, w.ledger, PAYLOAD_WORDS, op.reply, w.parts, others);
    }
  }

  lemma OpenedHasRoom(c: Chain, l: Ledger, serial: nat, r: CreateReply, others: Ledger)
    requires Shaped(c) && c.count == 0 && NoneOwns(c.slots, 0) && serial != 0
    requires Accounted(c.slots, others, l) && Admissible(l, r)
    ensures var o := Open(c, l, serial, r);
            && (o.rc == Success <==> Writable(o.chain))
            && (Writable(o.chain) ==> Room(o.chain) == PAYLOAD_WORDS + TAIL_WORDS)
  {
    var empty := EmptyChain(serial, INITIAL_RESERVE);
    AccountedSame(c.slots, empty.slots, others, l);
    StartKeeps(empty, l, r, [], others);
  }

  lemma ReserveKeepsTail(c: Chain, l: Ledger, need: nat, r: CreateReply, parts: seq<seq<seq<Word>>>, others: Ledger)
    requires InService(c, parts) && Accounted(c.slots, others, l) && Admissible(l, r)
    requires Writable(c) ==> Room(c) >= TAIL_WORDS
    ensures var o := Reserve(c, l, need, r);
            && (Writable(o.chain) ==> Room(o.chain) >= TAIL_WORDS)
            && (o.rc == Unknown ==> !Writable(c))
  {
    if Writable(c) && need <= PAYLOAD_WORDS && Room(c) < need + TAIL_WORDS {
      assert Live(c.slots[c.count - 1]);
      SealNeedsOnlyRoom(c);
      SealKeeps(c, parts);
      StartKeeps(Sealed(c), l, r, parts, others);
      StartIsNeverUnknown(Sealed(c), l, r, parts, others);
    }
  }

  lemma StartIsNeverUnknown(c: Chain, l: Ledger, r: CreateReply, parts: seq<seq<seq<Word>>>, others: Ledger)
    requires InService(c, parts) && c.cursor.Null? && c.count == |parts| && Pristine(c.slots, c.count)
    requires Accounted(c.slots, others, l) && Admissible(l, r)
    ensures StartArena(c, l, r).rc != Unknown
  {
    if c.count < BATCH_MAX {
      assert c.slots[c.count] == EMPTY_SLOT;
    }
  }

  lemma {:induction false} PoliteRunKeepsTail(w: World, ops: seq<Op>, others: Ledger)
    requires Reachable(w, others) && LegalRun(w, ops) && PoliteRun(w, ops) && TailFree(w)
    ensures TailFree(Run(w, ops))
    decreases |ops|
  {
    if ops != [] {
      StepKeeps(w, ops[0], others);
      StepKeepsTail(w, ops[0], others);
      PoliteRunKeepsTail(Step(w, ops[0]).0, ops[1..], others);
    }
  }

  lemma TailFreeSeals(w: World, need: nat, r: CreateReply, others: Ledger)
    requires Reachable(w, others) && Writable(w.chain) && !w.released && Admissible(w.ledger, r)
    requires Room(w.chain) >= TAIL_WORDS
    ensures Close(w.chain, w.ledger).rc == Success
    ensures Reserve(w.chain, w.ledger, need, r).rc != Unknown
  {
    assert Live(w.chain.slots[w.chain.count - 1]);
    SealNeedsOnlyRoom(w.chain);
    ReserveKeepsTail(w.chain, w.ledger, need, r, w.parts, others);
  }

  // ----- the reserve protocol

  /** How many words a caller may still write after a call: what a successful
      reserve asked for, or all that a fresh arena carries after a successful open
      or retry; an emission uses up its own words, and a call that fails, closes or
      releases leaves nothing. */
  function NextGrant(w: World, op: Op, granted: nat): nat
    requires Shaped(w.chain)
    requires op.DoRelease? ==> w.chain.count <= |op.replies|
  {
    var rc := Step(w, op).1;
    match op
    case DoOpen(_, _) => if rc == Success then PAYLOAD_WORDS else if w.chain.count == 0 then 0 else granted
    case DoReserve(need, _) => if rc == Success then need else 0
    case DoRetry(_, _) => if rc == Success then PAYLOAD_WORDS else 0
    case DoEmit(ws) => if rc == Success && |ws| <= granted then granted - |ws| else granted
    case DoScratch(_) => granted
    case DoMeasured(_) => granted
    case DoClose => 0
    case DoRelease(_) => 0
  }

  /** The protocol: every emission is at most what is granted. */
  ghost predicate ReservedRun(w: World, ops: seq<Op>, granted: nat)
    requires LegalRun(w, ops)
    decreases |ops|
  {
    ops != [] ==>
      && (ops[0].DoEmit? ==> |ops[0].ws| <= granted)
      && ReservedRun(Step(w, ops[0]).0, ops[1..], NextGrant(w, ops[0], granted))
  }

  /** The open arena has room for all that is granted and its release behind it. */
  predicate GrantHolds(w: World, granted: nat) {
    Writable(w.chain) && !w.released ==> Room(w.chain) >= granted + TAIL_WORDS
  }

  lemma StepKeepsGrant(w: World, op: Op, granted: nat, others: Ledger)
    requires Reachable(w, others) && Legal(w, op) && GrantHolds(w, granted)
    requires op.DoEmit? ==> |op.ws| <= granted
    ensures LeavesTail(w, op) && (op.DoEmit? && Writable(w.chain) ==> Step(w, op).1 == Success)
    ensures GrantHolds(Step(w, op).0, NextGrant(w, op, granted))
  {
    hide Accounted;
    if op.DoOpen? && op.serial != 0 && w.chain.count == 0 {
      OpenedHasRoom(w.chain, w.ledger, op.serial, op.reply, others);
    } else if op.DoReserve? || op.DoRetry? {
      ReserveKeepsGrant(w, op, granted, others);
    }
  }

  lemma ReserveKeepsGrant(w: World, op: Op, granted: nat, others: Ledger)
    requires (op.DoReserve? || op.DoRetry?) && Reachable(w, others) && Legal(w, op) && GrantHolds(w, granted)
    ensures GrantHolds(Step(w, op).0, NextGrant(w, op, granted))
  {
    hide Accounted;
    if !w.released {
      var need := if op.DoReserve? then op.need else PAYLOAD_WORDS;
      ReserveKeepsTail(w.chain, w.ledger, need, op.reply, w.parts, others);
      ReserveKeeps(w.chain, w.ledger, need, op.reply, w.parts, others);
    }
  }

  /** Callers that reserve before they emit always leave the release tail free. */
  lemma {:induction false} ReservedRunIsPolite(w: World, ops: seq<Op>, granted: nat, others: Ledger)
    requires Reachable(w, others) && LegalRun(w, ops) && ReservedRun(w, ops, granted) && GrantHolds(w, granted)
    ensures PoliteRun(w, ops)
    decreases |ops|
  {
    hide InService, OutOfService, Accounted, NextGrant, GrantHolds, LeavesTail, Step;
    if ops != [] {
      StepKeeps(w, ops[0], others);
      StepKeepsGrant(w, ops[0], granted, others);
      ReservedRunIsPolite(Step(w, ops[0]).0, ops[1..], NextGrant(w, ops[0], granted), others);
    }
  }

  /** Under the reserve protocol an open arena always keeps room for its release:
      it can always be closed, and a reserve that must split is refused only by the
      kernel, by the size asked for or by the 512-arena bound. */
  lemma SealingNeverLacksRoom(others: Ledger, ops: seq<Op>, need: nat, r: CreateReply)
    requires Backed(others) && LegalRun(Start(others), ops) && ReservedRun(Start(others), ops, 0)
    requires var w := Run(Start(others), ops); Writable(w.chain) && !w.released && Admissible(w.ledger, r)
    ensures var w := Run(Start(others), ops);
            && Room(w.chain) >= TAIL_WORDS
            && Close(w.chain, w.ledger).rc == Success
            && Reserve(w.chain, w.ledger, need, r).rc != Unknown
  {
    hide Reachable, ReservedRun, PoliteRun, Run;
    StartIsReachable(others);
    RunKeeps(Start(others), ops, others);
    ReservedRunIsPolite(Start(others), ops, 0, others);
    PoliteRunKeepsTail(Start(others), ops, others);
    TailFreeSeals(Run(Start(others), ops), need, r, others);
  }

  /** Without that protocol the claim is false: an emission that fills the arena
      to its end, which the emitters are allowed, leaves nothing to seal with. */
  lemma FullArenaCannotClose(others: Ledger, serial: Long, r: CreateReply, ws: seq<Word>)
    requires Backed(others) && Admissible(others, r) && serial != 0
    requires r.range.ok && Usable(r.range.at) && r.memory.ok && r.map_.Done?
    requires PAYLOAD_WORDS < |ws| <= PAYLOAD_WORDS + TAIL_WORDS
    ensures var w1 := Step(Start(others), DoOpen(serial, r)).0;
            && Shaped(w1.chain)
            && var (w2, rc) := Step(w1, DoEmit(ws));
               rc == Success && Shaped(w2.chain) && Step(w2, DoClose) == (w2, Unknown)
  {
  }

  /** For every run: an open arena closes exactly when its tail is free. */
  lemma ClosesIffTailFree(others: Ledger, ops: seq<Op>)
    requires Backed(others) && LegalRun(Start(others), ops)
    requires var w := Run(Start(others), ops); Writable(w.chain) && !w.released
    ensures var w := Run(Start(others), ops);
            Step(w, DoClose).1 == (if Room(w.chain) >= TAIL_WORDS then Success else Unknown)
  {
    hide Reachable, Run, LegalRun, Start;
    StartIsReachable(others);
    RunKeeps(Start(others), ops, others);
    ClosesFrom(Run(Start(others), ops), others);
  }

  lemma ClosesFrom(w: World, others: Ledger)
    requires Reachable(w, others) && Writable(w.chain) && !w.released
    ensures Step(w, DoClose).1 == (if Room(w.chain) >= TAIL_WORDS then Success else Unknown)
  {
    hide Accounted;
    assert Live(w.chain.slots[w.chain.count - 1]);
    SealNeedsOnlyRoom(w.chain);
  }

  // ----- splitting

  /** Reserve and retry seal at most one arena, and never one that holds nothing
      but its acquire. */
  predicate SealsOnlyUsed(c: Chain, d: Chain) {
    Shaped(c) && Shaped(d) &&
    (d.closed > c.closed ==>
       d.closed == c.closed + 1 && Writable(c) && d.words[c.count - 1] > ACQUIRE_WORDS + RELEASE_WORDS)
  }

  lemma NoEmptySplit(c: Chain, l: Ledger, need: nat, origin: Pointer, r: CreateReply)
    requires Shaped(c)
    ensures SealsOnlyUsed(c, Reserve(c, l, need, r).chain)
    ensures SealsOnlyUsed(c, Retry(c, l, origin, r).0.chain)
  {
    NoEmptyReserve(c, l, need, r);
    NoEmptyReserve(c, l, PAYLOAD_WORDS, r);
  }

  lemma NoEmptyReserve(c: Chain, l: Ledger, need: nat, r: CreateReply)
    requires Shaped(c)
    ensures SealsOnlyUsed(c, Reserve(c, l, need, r).chain)
  {
  }

  /** Closing is not so careful: a pass opened and closed at once submits an arena
      that holds nothing but its acquire and its release. */
  lemma OpenedClosesEmpty(others: Ledger, serial: Long, r: CreateReply)
    requires Backed(others) && Admissible(others, r) && serial != 0
    requires r.range.ok && Usable(r.range.at) && r.memory.ok && r.map_.Done?
    ensures var w1 := Step(Start(others), DoOpen(serial, r)).0;
            && Shaped(w1.chain)
            && var (w2, rc) := Step(w1, DoClose);
               && rc == Success && Shaped(w2.chain) && w2.chain.closed == 1
               && w2.chain.words[0] == ACQUIRE_WORDS + RELEASE_WORDS
  {
    hide Accounted, InService, ReleasePacket;
    StartIsReachable(others);
    OpenedHasRoom(Start(others).chain, others, serial, r, others);
    StepKeeps(Start(others), DoOpen(serial, r), others);
    ClosesFrom(Step(Start(others), DoOpen(serial, r)).0, others);
  }

  /** A close that succeeds submits an empty arena exactly when the cursor is still
      behind the acquire. */
  lemma ClosesEmptyIff(w: World, others: Ledger)
    requires Reachable(w, others) && Writable(w.chain) && !w.released && Step(w, DoClose).1 == Success
    ensures var d, untouched := Step(w, DoClose).0.chain, w.chain.cursor == At(w.chain.count - 1, ACQUIRE_WORDS);
            && Shaped(d) && d.closed == w.chain.count
            && (d.words[d.closed - 1] == ACQUIRE_WORDS + RELEASE_WORDS <==> untouched)
            && (Flatten(w.parts[d.closed - 1]) == [] <==> untouched)
  {
    hide Accounted;
    var c := w.chain;
    assert |c.memory[c.closed][..c.cursor.word]| == |ACQUIRE + Flatten(w.parts[c.closed])|;
  }

  lemma CarriedAtLeastAcquire(c: Chain, parts: seq<seq<seq<Word>>>)
    requires InService(c, parts) && Writable(c)
    ensures c.cursor.word >= ACQUIRE_WORDS
  {
    assert |c.memory[c.closed][..c.cursor.word]| == |ACQUIRE + Flatten(parts[c.closed])|;
  }

  /** A retry that succeeds always moves to a fresh arena with the origin at its
      first free word, and from there a second retry is refused: retrying ends. */
  lemma RetryEnds(others: Ledger, ops: seq<Op>, origin: Pointer, r: CreateReply)
    requires Backed(others) && LegalRun(Start(others), ops)
    requires var w := Run(Start(others), ops); Legal(w, DoRetry(origin, r)) && !w.released
    requires Retry(Run(Start(others), ops).chain, Run(Start(others), ops).ledger, origin, r).0.rc == Success
    ensures var w := Run(Start(others), ops);
            var (o, moved) := Retry(w.chain, w.ledger, origin, r);
            && o.chain.count == w.chain.count + 1 && o.chain.closed == w.chain.closed + 1
            && moved == o.chain.cursor == At(w.chain.count, ACQUIRE_WORDS)
            && Shaped(o.chain)
            && forall again: CreateReply ::
                 Retry(o.chain, o.ledger, moved, again) == (Outcome(o.chain, o.ledger, Unknown), moved)
  {
    hide Reachable, Run, LegalRun, Start;
    StartIsReachable(others);
    RunKeeps(Start(others), ops, others);
    RetryEndsFrom(Run(Start(others), ops), origin, r, others);
  }

  lemma RetryEndsFrom(w: World, origin: Pointer, r: CreateReply, others: Ledger)
    requires Reachable(w, others) && Legal(w, DoRetry(origin, r)) && !w.released
    requires Retry(w.chain, w.ledger, origin, r).0.rc == Success
    ensures var (o, moved) := Retry(w.chain, w.ledger, origin, r);
            && o.chain.count == w.chain.count + 1 && o.chain.closed == w.chain.closed + 1
            && moved == o.chain.cursor == At(w.chain.count, ACQUIRE_WORDS)
            && Shaped(o.chain)
            && forall again: CreateReply ::
                 Retry(o.chain, o.ledger, moved, again) == (Outcome(o.chain, o.ledger, Unknown), moved)
  {
    hide Accounted;
    CarriedAtLeastAcquire(w.chain, w.parts);
    ReserveKeeps(w.chain, w.ledger, PAYLOAD_WORDS, r, w.parts, others);
  }

  // ----- exhaustion

  /** A chain driven by reserves of at most R words, never closed by hand. */
  predicate Thrifty(op: Op, limit: nat) {
    match op
    case DoReserve(need, _) => need <= limit
    case DoEmit(_) => true
    case DoScratch(_) => true
    case DoMeasured(_) => true
    case DoOpen(_, _) => true
    case _ => false
  }

  predicate WellFilled(c: Chain, limit: nat)
    requires Shaped(c)
  {
    forall i | 0 <= i < c.closed :: c.words[i] + limit > PAYLOAD_WORDS + ACQUIRE_WORDS + RELEASE_WORDS
  }

  lemma ReserveKeepsFilled(c: Chain, l: Ledger, need: nat, r: CreateReply, limit: nat)
    requires Shaped(c) && need <= limit && WellFilled(c, limit)
    requires Writable(c) ==> c.closed == c.count - 1
    ensures var d := Reserve(c, l, need, r).chain; Shaped(d) && WellFilled(d, limit)
  {
    if Writable(c) && need <= PAYLOAD_WORDS && Room(c) < need + TAIL_WORDS && !SealRefused(c) {
      var d := Reserve(c, l, need, r).chain;
      assert d.words == Sealed(c).words && d.closed == Sealed(c).closed;
    }
  }

  lemma StepKeepsFilled(w: World, op: Op, limit: nat)
    requires Shaped(w.chain) && Legal(w, op) && Thrifty(op, limit) && WellFilled(w.chain, limit)
    requires Writable(w.chain) ==> w.chain.closed == w.chain.count - 1
    ensures var w' := Step(w, op).0; Shaped(w'.chain) && WellFilled(w'.chain, limit) && (w.released || !w'.released)
  {
    if op.DoReserve? {
      ReserveKeepsFilled(w.chain, w.ledger, op.need, op.reply, limit);
    }
  }

  lemma {:induction false} RunKeepsFilled(w: World, ops: seq<Op>, limit: nat, others: Ledger)
    requires Reachable(w, others) && !w.released && LegalRun(w, ops) && WellFilled(w.chain, limit)
    requires forall k | 0 <= k < |ops| :: Thrifty(ops[k], limit)
    ensures WellFilled(Run(w, ops).chain, limit) && !Run(w, ops).released
    decreases |ops|
  {
    hide Step, WellFilled, Accounted;
    if ops != [] {
      StepKeeps(w, ops[0], others);
      StepKeepsFilled(w, ops[0], limit);
      RunKeepsFilled(Step(w, ops[0]).0, ops[1..], limit, others);
    }
  }

  lemma {:induction false} FilledStream(c: Chain, n: nat, limit: nat)
    requires WellSized(c) && n <= c.closed <= Arenas(c) && WellFilled(c, limit) && limit <= PAYLOAD_WORDS
    ensures |StreamUpTo(c, n)| >= n * (PAYLOAD_WORDS - limit + 1)
  {
    if n > 0 {
      FilledStream(c, n - 1, limit);
      assert n * (PAYLOAD_WORDS - limit + 1) == (n - 1) * (PAYLOAD_WORDS - limit + 1) + (PAYLOAD_WORDS - limit + 1);
    }
  }

  lemma {:induction false} LongerStream(c: Chain, m: nat, n: nat)
    requires WellSized(c) && m <= n <= Arenas(c)
    ensures |StreamUpTo(c, m)| <= |StreamUpTo(c, n)|
    decreases n
  {
    if m < n {
      LongerStream(c, m, n - 1);
    }
  }

  /** Exhaustion bound: with needs of at most `limit` words every arena a reserve
      seals is filled past PAYLOAD_WORDS - limit, so a pass is turned away by the
      arena bound only after more than 512 * (PAYLOAD_WORDS - limit) words. */
  lemma ExhaustedOnlyWhenFull(others: Ledger, ops: seq<Op>, limit: nat)
    requires Backed(others) && LegalRun(Start(others), ops) && limit <= PAYLOAD_WORDS
    requires forall k | 0 <= k < |ops| :: Thrifty(ops[k], limit)
    ensures var w := Run(Start(others), ops);
            w.chain.closed == BATCH_MAX ==>
              |Flatten(w.log)| >= BATCH_MAX * (PAYLOAD_WORDS - limit + 1)
  {
    StartIsReachable(others);
    StreamRefinement(others, ops);
    RunKeepsFilled(Start(others), ops, limit, others);
    var w := Run(Start(others), ops);
    if w.chain.closed == BATCH_MAX {
      FilledStream(w.chain, BATCH_MAX, limit);
      LongerStream(w.chain, BATCH_MAX, Arenas(w.chain));
    }
  }
}
