/** Runs of the chain: any sequence of calls, any answers of the kernel. */
module DrawBatchRuns {
  import opened Words
  import opened CommandArenas
  import opened ArenaOwnership
  import opened DrawBatch

  /** One step of a run. `Emit` is a caller writing a whole emission at the
      cursor, and being told so when it does not fit; `Scratch` is an emitter
      that fails after writing some words but does not move the cursor. */
  datatype Op =
    | DoOpen(serial: Long, reply: CreateReply)
    | DoReserve(need: nat, reply: CreateReply)
    | DoEmit(ws: seq<Word>)
    | DoScratch(ws: seq<Word>)
    | DoRetry(origin: Pointer, reply: CreateReply)
    | DoMeasured(words: nat)
    | DoClose
    | DoRelease(replies: seq<ReleaseReply>)

  /** A chain, the ledger, and what happened since the chain was last opened:
      the emissions written, the same emissions grouped by the arena they went
      to, and whether a release has been asked for. */
  datatype World = World(
    chain: Chain,
    ledger: Ledger,
    log: seq<seq<Word>>,
    parts: seq<seq<seq<Word>>>,
    released: bool)

  function Start(others: Ledger): World { World(EmptyChain(0, 0), others, [], [], false) }

  /** Starting an arena opens a new, empty group. */
  function Regroup(before: Chain, o: Outcome, parts: seq<seq<seq<Word>>>): seq<seq<seq<Word>>> {
    if o.chain.count > before.count && o.chain.cursor.At? then parts + [[]] else parts
  }

  function Step(w: World, op: Op): (World, VkResult)
    requires Shaped(w.chain)
    requires op.DoRelease? ==> w.chain.count <= |op.replies|
  {
    match op
    case DoOpen(serial, r) =>
      var o := Open(w.chain, w.ledger, serial, r);
      if serial == 0 || w.chain.count != 0 then (w, o.rc)
      else (World(o.chain, o.ledger, [], Regroup(w.chain, o, []), false), o.rc)
    case DoReserve(need, r) =>
      var o := Reserve(w.chain, w.ledger, need, r);
      (World(o.chain, o.ledger, w.log, Regroup(w.chain, o, w.parts), w.released), o.rc)
    case DoEmit(ws) =>
      if Writable(w.chain) && |ws| <= Room(w.chain) && w.parts != [] then
        (World(Write(w.chain, ws), w.ledger, w.log + [ws], Grow(w.parts, ws), w.released), Success)
      else (w, OutOfHostMemory)
    case DoScratch(ws) =>
      if Writable(w.chain) && |ws| <= Room(w.chain) then
        (World(Scribble(w.chain, ws), w.ledger, w.log, w.parts, w.released), OutOfHostMemory)
      else (w, OutOfHostMemory)
    case DoRetry(origin, r) =>
      var o := Retry(w.chain, w.ledger, origin, r).0;
      (World(o.chain, o.ledger, w.log, Regroup(w.chain, o, w.parts), w.released), o.rc)
    case DoMeasured(words) => (World(Measured(w.chain, words), w.ledger, w.log, w.parts, w.released), Success)
    case DoClose =>
      var o := Close(w.chain, w.ledger);
      (World(o.chain, o.ledger, w.log, w.parts, w.released), o.rc)
    case DoRelease(rs) =>
      var o := ReleaseAll(w.chain, w.ledger, rs);
      (World(o.chain, o.ledger, w.log, w.parts, true), o.rc)
  }

  function Grow(parts: seq<seq<seq<Word>>>, ws: seq<Word>): seq<seq<seq<Word>>>
    requires parts != []
  {
    parts[|parts| - 1 := parts[|parts| - 1] + [ws]]
  }

  /** A release that had to keep a record leaves the cursor of an arena that was
      never sealed where it was: it must not be used again. */
  predicate Stale(w: World) { w.released && Writable(w.chain) }

  /** What a step needs of its caller and of the kernel: fresh ranges, an answer
      for every record, and nothing written through a stale cursor. */
  predicate Legal(w: World, op: Op) {
    match op
    case DoOpen(_, r) => Admissible(w.ledger, r)
    case DoReserve(_, r) => Admissible(w.ledger, r) && !Stale(w)
    case DoRetry(_, r) => Admissible(w.ledger, r) && !Stale(w)
    case DoEmit(_) => !Stale(w)
    case DoScratch(_) => !Stale(w)
    case DoRelease(rs) => |rs| >= w.chain.count
    case DoClose => true
    case DoMeasured(_) => true
  }

  // ----- what every reachable world satisfies

  predicate AllLive(slots: seq<Slot>, n: nat)
    requires n <= |slots|
  {
    forall i | 0 <= i < n :: Live(slots[i])
  }

  predicate NoneOwns(slots: seq<Slot>, n: nat)
    requires n <= |slots|
  {
    forall i | n <= i < |slots| :: !Owns(slots[i])
  }

  predicate Pristine(slots: seq<Slot>, n: nat)
    requires n <= |slots|
  {
    forall i | n <= i < |slots| :: slots[i] == EMPTY_SLOT
  }

  /** The label area holds what creation left there. */
  predicate LabelClear(memory: seq<Word>) {
    |memory| == MEMORY_WORDS && forall i | ARENA_WORDS <= i < MEMORY_WORDS :: memory[i] == 0
  }

  /** The words of an arena up to its cursor: the acquire, then its emissions. */
  predicate Carries(memory: seq<Word>, used: nat, payload: seq<Word>) {
    && LabelClear(memory) && used <= ARENA_WORDS
    && memory[..used] == ACQUIRE + payload
  }

  /** A sealed arena is a complete submission: acquire, whole emissions, and the
      release that signals this arena's own label. */
  predicate Framed(s: Slot, memory: seq<Word>, used: nat, payload: seq<Word>, serial: nat) {
    Carries(memory, used, payload + ReleasePacket(Label(s), serial))
  }

  predicate SealedPart(c: Chain, parts: seq<seq<seq<Word>>>)
    requires Shaped(c) && |parts| <= c.count
  {
    forall i | 0 <= i < c.closed && i < |parts| ::
      Framed(c.slots[i], c.memory[i], c.words[i], Flatten(parts[i]), c.serial)
  }

  /** The states a chain that has not been released can be in: empty, with one
      arena open behind sealed ones, or stuck behind sealed ones. */
  predicate InService(c: Chain, parts: seq<seq<seq<Word>>>) {
    && Shaped(c)
    && |parts| <= c.count
    && c.count <= |parts| + 1
    && AllLive(c.slots, |parts|)
    && NoneOwns(c.slots, c.count)
    && (c.count > 0 ==> c.serial != 0)
    && (c.cursor.Null? <==> c.end.Null?)
    && (c.cursor.At? ==>
          && Writable(c) && |parts| == c.count && c.closed == c.count - 1 && Pristine(c.slots, c.count)
          && Carries(c.memory[c.closed], c.cursor.word, Flatten(parts[c.closed])))
    && (c.cursor.Null? ==> c.closed == |parts|)
    && (c.count == |parts| + 1 ==> c.cursor.Null? && c.slots[|parts|].uncertain)
    && SealedPart(c, parts)
  }

  /** After a release call: gone, or only uncertain and erased records left. */
  predicate OutOfService(c: Chain) {
    && Shaped(c)
    && NoneOwns(c.slots, c.count)
    && (forall i | 0 <= i < c.count :: c.slots[i] == EMPTY_SLOT || c.slots[i].uncertain)
    && (c.count > 0 ==> exists i | 0 <= i < c.count :: c.slots[i].uncertain)
  }

  ghost predicate Reachable(w: World, others: Ledger) {
    && Shaped(w.chain)
    && Accounted(w.chain.slots, others, w.ledger)
    && (if w.released then OutOfService(w.chain)
        else InService(w.chain, w.parts) && Flatten(w.parts) == w.log)
  }

  // ----- one arena

  lemma ScribbleKeepsCarried(c: Chain, ws: seq<Word>, payload: seq<Word>)
    requires Writable(c) && |ws| <= Room(c) && Carries(c.memory[c.count - 1], c.cursor.word, payload)
    ensures var m := Scribble(c, ws).memory[c.count - 1];
            Carries(m, c.cursor.word, payload) && Carries(m, c.cursor.word + |ws|, payload + ws)
  {
    var before := c.memory[c.count - 1];
    var at := c.cursor.word;
    var m := Overwrite(before, at, ws);
    assert m[..at] == before[..at];
    assert m[..at + |ws|] == before[..at] + ws == ACQUIRE + (payload + ws);
    forall i | ARENA_WORDS <= i < MEMORY_WORDS ensures m[i] == 0 {
      assert m[i] == before[i];
    }
  }

  /** In a live arena under a valid serial, only lack of room stops a seal. */
  lemma SealNeedsOnlyRoom(c: Chain)
    requires Writable(c) && Live(c.slots[c.count - 1]) && c.serial != 0
    ensures SealRefused(c) <==> Room(c) < TAIL_WORDS
  {
  }

  lemma SealKeeps(c: Chain, parts: seq<seq<seq<Word>>>)
    requires InService(c, parts) && Writable(c) && !SealRefused(c)
    ensures var d := Sealed(c);
            InService(d, parts) && d.count == |parts| && Pristine(d.slots, d.count)
  {
    var k := c.count - 1;
    var d := Sealed(c);
    ScribbleKeepsCarried(c, ReleasePacket(Label(c.slots[k]), c.serial), Flatten(parts[k]));
    forall i | 0 <= i < d.closed
      ensures Framed(d.slots[i], d.memory[i], d.words[i], Flatten(parts[i]), d.serial)
    {
      if i < k {
        assert Framed(c.slots[i], c.memory[i], c.words[i], Flatten(parts[i]), c.serial);
      }
    }
  }

  lemma FreshArenaCarriesAcquire(c: Chain, s: Slot)
    requires Shaped(c) && c.count < BATCH_MAX && c.closed == c.count
    ensures var d := Adopt(c, s);
            && Writable(d) && |ACQUIRE| <= Room(d)
            && Carries(Write(d, ACQUIRE).memory[c.count], ACQUIRE_WORDS, [])
  {
    var d := Adopt(c, s);
    var m := Overwrite(Zeroed(), 0, ACQUIRE);
    assert m[..ACQUIRE_WORDS] == ACQUIRE + [];
  }

  lemma StartKeeps(c: Chain, l: Ledger, r: CreateReply, parts: seq<seq<seq<Word>>>, others: Ledger)
    requires InService(c, parts) && c.cursor.Null? && c.count == |parts| && Pristine(c.slots, c.count) && c.serial != 0
    requires Accounted(c.slots, others, l) && Admissible(l, r)
    ensures var o := StartArena(c, l, r);
            && InService(o.chain, Regroup(c, o, parts)) && Accounted(o.chain.slots, others, o.ledger)
            && (o.rc == Success <==> Writable(o.chain))
            && (o.rc == Success ==> Room(o.chain) == PAYLOAD_WORDS + TAIL_WORDS)
  {
    hide Accounted, Framed, Overwrite, Repeat, ReleasePacket;
    var o := StartArena(c, l, r);
    var k := c.count;
    if k < BATCH_MAX {
      forall i | 0 <= i < |c.slots| ensures !c.slots[i].uncertain {
        if i < |parts| { assert Live(c.slots[i]); } else { assert c.slots[i] == EMPTY_SLOT; }
      }
      CreateKeepsAccounts(c.slots, k, others, l, r);
      if o.rc == Success {
        var s := Create(c.slots[k], l, r).0;
        FreshArenaCarriesAcquire(c, s);
        var after := parts + [[]];
        assert Flatten(after[k]) == [];
        forall i | 0 <= i < c.closed
          ensures Framed(o.chain.slots[i], o.chain.memory[i], o.chain.words[i], Flatten(after[i]), o.chain.serial)
        {
          assert Framed(c.slots[i], c.memory[i], c.words[i], Flatten(parts[i]), c.serial);
        }
      } else {
        forall i | 0 <= i < c.closed
          ensures Framed(o.chain.slots[i], o.chain.memory[i], o.chain.words[i], Flatten(parts[i]), o.chain.serial)
        {
          assert Framed(c.slots[i], c.memory[i], c.words[i], Flatten(parts[i]), c.serial);
        }
      }
    }
  }

  // ----- one call

  lemma OpenKeeps(c: Chain, l: Ledger, serial: nat, r: CreateReply, others: Ledger)
    requires Shaped(c) && c.count == 0 && NoneOwns(c.slots, 0) && serial != 0
    requires Accounted(c.slots, others, l) && Admissible(l, r)
    ensures var o := Open(c, l, serial, r);
            InService(o.chain, Regroup(c, o, [])) && Accounted(o.chain.slots, others, o.ledger)
  {
    var empty := EmptyChain(serial, INITIAL_RESERVE);
    AccountedSame(c.slots, empty.slots, others, l);
    StartKeeps(empty, l, r, [], others);
  }

  lemma ReserveKeeps(c: Chain, l: Ledger, need: nat, r: CreateReply, parts: seq<seq<seq<Word>>>, others: Ledger)
    requires InService(c, parts) && Accounted(c.slots, others, l) && Admissible(l, r)
    ensures var o := Reserve(c, l, need, r);
            && InService(o.chain, Regroup(c, o, parts)) && Accounted(o.chain.slots, others, o.ledger)
            && (o.rc == Success ==> Writable(o.chain) && Room(o.chain) >= need + TAIL_WORDS)
  {
    if Writable(c) && need <= PAYLOAD_WORDS && Room(c) < need + TAIL_WORDS && !SealRefused(c) {
      SealKeeps(c, parts);
      StartKeeps(Sealed(c), l, r, parts, others);
    }
  }

  lemma EmitKeeps(c: Chain, ws: seq<Word>, parts: seq<seq<seq<Word>>>)
    requires InService(c, parts) && Writable(c) && |ws| <= Room(c)
    ensures InService(Scribble(c, ws), parts) && InService(Write(c, ws), Grow(parts, ws))
  {
    var k := c.count - 1;
    ScribbleKeepsCarried(c, ws, Flatten(parts[k]));
    FlattenSnoc(parts[k], ws);
    forall i | 0 <= i < c.closed
      ensures Framed(c.slots[i], Scribble(c, ws).memory[i], c.words[i], Flatten(parts[i]), c.serial)
    {
      assert Framed(c.slots[i], c.memory[i], c.words[i], Flatten(parts[i]), c.serial);
    }
  }

  /** The loop of the release visits every slot once, whatever goes wrong. */
  lemma {:induction false} ReleaseFromKeeps(slots: seq<Slot>, count: nat, l: Ledger, rs: seq<ReleaseReply>, i: nat,
      rc: VkResult, others: Ledger)
    requires i <= count <= |slots| && count <= |rs| && Accounted(slots, others, l)
    requires forall k | 0 <= k < i :: slots[k] == EMPTY_SLOT || slots[k].uncertain
    requires rc == Success || rc == DeviceLost
    requires rc == Success <==> forall k | 0 <= k < i :: slots[k] == EMPTY_SLOT
    ensures var (slots', l', rc') := ReleaseFrom(slots, count, l, rs, i, rc);
            && |slots'| == |slots| && Accounted(slots', others, l')
            && (forall k | 0 <= k < count :: slots'[k] == EMPTY_SLOT || slots'[k].uncertain)
            && (forall k | count <= k < |slots| :: slots'[k] == slots[k])
            && (forall k | 0 <= k < |slots| && slots[k].uncertain :: slots'[k] == slots[k])
            && (rc' == Success || rc' == DeviceLost)
            && (rc' == Success <==> forall k | 0 <= k < count :: slots'[k] == EMPTY_SLOT)
            && l'.reserved <= l.reserved && l'.backing <= l.backing && l'.mapped <= l.mapped
    decreases count - i
  {
    if i < count {
      var one := CommandArenas.Release(slots[i], l, rs[i]);
      ReleaseKeepsAccounts(slots, i, others, l, rs[i]);
      var rest := slots[i := one.0];
      var rc1 := if one.2 == Success then rc else one.2;
      assert rest[i] == one.0;
      assert rc1 == Success ==> forall k | 0 <= k < i + 1 :: rest[k] == EMPTY_SLOT;
      if forall k | 0 <= k < i + 1 :: rest[k] == EMPTY_SLOT {
        assert forall k | 0 <= k < i :: slots[k] == rest[k];
        assert rest[i] == EMPTY_SLOT;
      }
      ReleaseFromKeeps(rest, count, one.1, rs, i + 1, rc1, others);
    }
  }

  /** With no record left the kernel holds only what others asked for. */
  lemma NothingOwnedNothingHeld(slots: seq<Slot>, others: Ledger, l: Ledger)
    requires Accounted(slots, others, l) && NoneOwns(slots, 0)
    ensures l == others
  {
    forall v, p | (v, p) in l.mapped ensures (v, p) in others.mapped {}
    forall m | m in l.mapped ensures m in others.mapped {
      assert (m.0, m.1) in l.mapped;
    }
  }

  lemma ReleaseKeeps(c: Chain, l: Ledger, rs: seq<ReleaseReply>, others: Ledger)
    requires Shaped(c) && c.count <= |rs| && Accounted(c.slots, others, l) && NoneOwns(c.slots, c.count)
    ensures var o := ReleaseAll(c, l, rs);
            && OutOfService(o.chain) && Accounted(o.chain.slots, others, o.ledger)
            && (o.rc == Success || o.rc == DeviceLost)
            && (o.rc == Success ==> o.chain == EmptyChain(0, 0) && o.ledger == others)
            && (o.rc == DeviceLost ==> o.chain.count == c.count && o.chain.count > 0)
            && (forall k | 0 <= k < |c.slots| && c.slots[k].uncertain ::
                  o.rc == DeviceLost && o.chain.slots[k] == c.slots[k])
  {
    ReleaseFromKeeps(c.slots, c.count, l, rs, 0, Success, others);
    var (slots', l', rc') := ReleaseFrom(c.slots, c.count, l, rs, 0, Success);
    var empty := EmptyChain(0, 0);
    forall k | 0 <= k < |c.slots| && c.slots[k].uncertain
      ensures rc' == DeviceLost && slots'[k] == c.slots[k]
    {
      assert k < c.count;
    }
    if rc' == Success {
      AccountedSame(slots', empty.slots, others, l');
      NothingOwnedNothingHeld(empty.slots, others, l');
    }
  }

  lemma OpenStepKeeps(w: World, op: Op, others: Ledger)
    requires op.DoOpen? && Reachable(w, others) && Legal(w, op)
    ensures Reachable(Step(w, op).0, others)
  {
    if op.serial != 0 && w.chain.count == 0 {
      OpenKeeps(w.chain, w.ledger, op.serial, op.reply, others);
      RegroupFlat(w.chain, Open(w.chain, w.ledger, op.serial, op.reply), []);
    }
  }

  lemma ReserveStepKeeps(w: World, op: Op, others: Ledger)
    requires (op.DoReserve? || op.DoRetry?) && Reachable(w, others) && Legal(w, op)
    ensures Reachable(Step(w, op).0, others)
  {
    if !w.released {
      var need := if op.DoReserve? then op.need else PAYLOAD_WORDS;
      ReserveKeeps(w.chain, w.ledger, need, op.reply, w.parts, others);
      RegroupFlat(w.chain, Reserve(w.chain, w.ledger, need, op.reply), w.parts);
    }
  }

  lemma EmitStepKeeps(w: World, op: Op, others: Ledger)
    requires (op.DoEmit? || op.DoScratch?) && Reachable(w, others) && Legal(w, op)
    ensures Reachable(Step(w, op).0, others)
  {
    if Writable(w.chain) && |op.ws| <= Room(w.chain) {
      EmitKeeps(w.chain, op.ws, w.parts);
      FlattenGrowLast(w.parts, op.ws);
    }
  }

  lemma CloseStepKeeps(w: World, others: Ledger)
    requires Reachable(w, others)
    ensures Reachable(Step(w, DoClose).0, others)
  {
    if !w.released && Writable(w.chain) && !SealRefused(w.chain) {
      SealKeeps(w.chain, w.parts);
    }
  }

  lemma ReleaseStepKeeps(w: World, rs: seq<ReleaseReply>, others: Ledger)
    requires Reachable(w, others) && |rs| >= w.chain.count
    ensures Reachable(Step(w, DoRelease(rs)).0, others)
  {
    hide ReleaseAll, Accounted;
    ReleaseKeeps(w.chain, w.ledger, rs, others);
  }

  lemma MeasuredStepKeeps(w: World, op: Op, others: Ledger)
    requires op.DoMeasured? && Reachable(w, others)
    ensures Reachable(Step(w, op).0, others)
  {
    hide Accounted;
  }

  /** Every call from a reachable world leads to a reachable world. */
  lemma StepKeeps(w: World, op: Op, others: Ledger)
    requires Reachable(w, others) && Legal(w, op)
    ensures Reachable(Step(w, op).0, others)
  {
    hide Step, InService, OutOfService, Accounted;
    if op.DoOpen? {
      OpenStepKeeps(w, op, others);
    } else if op.DoReserve? || op.DoRetry? {
      ReserveStepKeeps(w, op, others);
    } else if op.DoEmit? || op.DoScratch? {
      EmitStepKeeps(w, op, others);
    } else if op.DoClose? {
      CloseStepKeeps(w, others);
    } else if op.DoRelease? {
      ReleaseStepKeeps(w, op.replies, others);
    } else {
      MeasuredStepKeeps(w, op, others);
    }
  }

  lemma RegroupFlat(c: Chain, o: Outcome, parts: seq<seq<seq<Word>>>)
    ensures Flatten(Regroup(c, o, parts)) == Flatten(parts)
  {
    FlattenSnoc(parts, []);
  }
}
