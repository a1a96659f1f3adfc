/** Nothing leaks and nothing is freed twice, whatever the kernel answers. */
module DrawBatchOwnership {
  import opened Words
  import opened CommandArenas
  import opened ArenaOwnership
  import opened DrawBatch
  import opened DrawBatchRuns
  import opened DrawBatchProperties

  /** Slot i is the one record of the range, the memory, the mapping. */
  ghost predicate OnlyOwner(slots: seq<Slot>, i: nat, a: nat) {
    && i < |slots| && slots[i].reserved && slots[i].address == a
    && forall j | 0 <= j < |slots| && slots[j].reserved && slots[j].address == a :: j == i
  }

  ghost predicate OnlyBacker(slots: seq<Slot>, i: nat, p: nat) {
    && i < |slots| && slots[i].backed && slots[i].physical == p
    && forall j | 0 <= j < |slots| && slots[j].backed && slots[j].physical == p :: j == i
  }

  /** Ownership conservation: in every run, each range the kernel holds beyond
      what others hold is recorded by exactly one slot of the chain, a mapping
      by the slot that records both its range and its memory, and every slot
      that is not uncertain tells the truth; nothing is mapped that is not both
      reserved and allocated. */
  lemma EveryRangeHasOneOwner(others: Ledger, ops: seq<Op>)
    requires Backed(others) && LegalRun(Start(others), ops)
    ensures var w := Run(Start(others), ops);
            var slots := w.chain.slots;
            && Backed(w.ledger)
            && others.reserved <= w.ledger.reserved && others.backing <= w.ledger.backing
            && others.mapped <= w.ledger.mapped
            && (forall a | a in w.ledger.reserved - others.reserved ::
                  exists i :: 0 <= i < w.chain.count && OnlyOwner(slots, i, a))
            && (forall p | p in w.ledger.backing - others.backing ::
                  exists i :: 0 <= i < w.chain.count && OnlyBacker(slots, i, p))
            && (forall v, p | (v, p) in w.ledger.mapped - others.mapped ::
                  exists i :: 0 <= i < w.chain.count && OnlyOwner(slots, i, v) && OnlyBacker(slots, i, p))
            && (forall i | 0 <= i < |slots| :: Honest(slots[i], w.ledger))
  {
    StartIsReachable(others);
    RunKeeps(Start(others), ops, others);
    var w := Run(Start(others), ops);
    var slots := w.chain.slots;
    forall a | a in w.ledger.reserved - others.reserved
      ensures exists i :: 0 <= i < w.chain.count && OnlyOwner(slots, i, a)
    {
      var i :| 0 <= i < |slots| && slots[i].reserved && slots[i].address == a;
      OwnerIsUnique(slots, others, i);
      assert i < w.chain.count && OnlyOwner(slots, i, a);
    }
    forall p | p in w.ledger.backing - others.backing
      ensures exists i :: 0 <= i < w.chain.count && OnlyBacker(slots, i, p)
    {
      var i :| 0 <= i < |slots| && slots[i].backed && slots[i].physical == p;
      OwnerIsUnique(slots, others, i);
      assert i < w.chain.count && OnlyBacker(slots, i, p);
    }
    forall v, p | (v, p) in w.ledger.mapped - others.mapped
      ensures exists i :: 0 <= i < w.chain.count && OnlyOwner(slots, i, v) && OnlyBacker(slots, i, p)
    {
      var i :| 0 <= i < |slots| && slots[i].backed && (slots[i].mapped || slots[i].uncertain)
        && slots[i].address == v && slots[i].physical == p;
      assert Honest(slots[i], w.ledger);
      OwnerIsUnique(slots, others, i);
      assert i < w.chain.count && OnlyOwner(slots, i, v) && OnlyBacker(slots, i, p);
    }
  }

  lemma OwnerIsUnique(slots: seq<Slot>, others: Ledger, i: nat)
    requires Disjoint(slots, others) && i < |slots|
    ensures slots[i].reserved ==> OnlyOwner(slots, i, slots[i].address)
    ensures slots[i].backed ==> OnlyBacker(slots, i, slots[i].physical)
  {
    forall j | 0 <= j < |slots| && j != i ensures Separate(slots[j], slots[i]) {
      assert Separate(slots[if j < i then j else i], slots[if j < i then i else j]);
    }
  }

  /** The record one slot is left with depends on its own answers alone. */
  lemma {:induction false} EachSlotReleasedAlone(slots: seq<Slot>, count: nat, l: Ledger, rs: seq<ReleaseReply>, i: nat,
      rc: VkResult, k: nat)
    requires i <= count <= |slots| && count <= |rs| && i <= k < count
    ensures var out := ReleaseFrom(slots, count, l, rs, i, rc);
            |out.0| == |slots| && out.0[k] == CommandArenas.Release(slots[k], l, rs[k]).0
    decreases count - i
  {
    hide CommandArenas.Release;
    var one := CommandArenas.Release(slots[i], l, rs[i]);
    var rest := slots[i := one.0];
    var rc1 := if one.2 == Success then rc else one.2;
    if i < k {
      EachSlotReleasedAlone(rest, count, one.1, rs, i + 1, rc1, k);
      SlotIgnoresLedger(slots[k], l, one.1, rs[k]);
    } else {
      EarlierSlotsKept(rest, count, one.1, rs, i + 1, rc1, k);
    }
  }

  lemma SlotIgnoresLedger(s: Slot, l: Ledger, l': Ledger, r: ReleaseReply)
    ensures CommandArenas.Release(s, l, r).0 == CommandArenas.Release(s, l', r).0
  {
  }

  lemma {:induction false} EarlierSlotsKept(slots: seq<Slot>, count: nat, l: Ledger, rs: seq<ReleaseReply>, i: nat,
      rc: VkResult, k: nat)
    requires i <= count <= |slots| && count <= |rs| && k < i
    ensures var out := ReleaseFrom(slots, count, l, rs, i, rc); |out.0| == |slots| && out.0[k] == slots[k]
    decreases count - i
  {
    hide CommandArenas.Release;
    if i < count {
      var one := CommandArenas.Release(slots[i], l, rs[i]);
      EarlierSlotsKept(slots[i := one.0], count, one.1, rs, i + 1, if one.2 == Success then rc else one.2, k);
    }
  }

  /** A record that its own answers let go of: it is not uncertain, and what it
      holds is given back. */
  predicate Clears(s: Slot, r: ReleaseReply) {
    && !s.uncertain && (s.mapped ==> r.unmap.Done?) && (s.backed ==> r.free.Done?) && (s.reserved ==> r.munmap.Done?)
  }

  predicate AllClear(slots: seq<Slot>, rs: seq<ReleaseReply>, i: nat, count: nat)
    requires count <= |slots| && count <= |rs|
  {
    forall k | i <= k < count :: Clears(slots[k], rs[k])
  }

  lemma OneClears(s: Slot, l: Ledger, r: ReleaseReply)
    ensures CommandArenas.Release(s, l, r).2 == Success <==> Clears(s, r)
  {
  }

  /** The release succeeds exactly when every record clears. */
  lemma {:induction false} SucceedsIffAllClear(slots: seq<Slot>, count: nat, l: Ledger, rs: seq<ReleaseReply>,
      i: nat, rc: VkResult)
    requires i <= count <= |slots| && count <= |rs|
    ensures ReleaseFrom(slots, count, l, rs, i, rc).2 == Success <==> rc == Success && AllClear(slots, rs, i, count)
    decreases count - i
  {
    hide CommandArenas.Release, Clears;
    if i < count {
      var one := CommandArenas.Release(slots[i], l, rs[i]);
      OneClears(slots[i], l, rs[i]);
      var rest := slots[i := one.0];
      SucceedsIffAllClear(rest, count, one.1, rs, i + 1, if one.2 == Success then rc else one.2);
      assert forall k | i + 1 <= k < count :: rest[k] == slots[k];
    }
  }

  predicate Willing(r: ReleaseReply) { r.unmap.Done? && r.free.Done? && r.munmap.Done? }

  /** What a release promises: uncertain records stay exactly as they are and are
      reported; every other record whose own kernel calls succeed is freed, even
      when others fail; and it succeeds exactly when every record clears, and
      then none stays behind and the kernel is left as others had it. */
  predicate CleanRelease(c: Chain, o: Outcome, rs: seq<ReleaseReply>, others: Ledger)
    requires Shaped(c) && Shaped(o.chain) && |rs| >= c.count
  {
    && (forall k | 0 <= k < c.count && c.slots[k].uncertain :: o.rc == DeviceLost && o.chain.slots[k] == c.slots[k])
    && (forall k | 0 <= k < c.count && !c.slots[k].uncertain && Willing(rs[k]) :: o.chain.slots[k] == EMPTY_SLOT)
    && (o.rc == Success <==> AllClear(c.slots, rs, 0, c.count))
    && (o.rc == Success <==> o.chain.count == 0)
    && (o.rc == Success ==> o.chain == EmptyChain(0, 0) && o.ledger == others)
    && (o.rc == Success || o.rc == DeviceLost)
  }

  lemma ReleaseFreesAllButUncertain(others: Ledger, ops: seq<Op>, rs: seq<ReleaseReply>)
    requires Backed(others) && LegalRun(Start(others), ops)
    requires |rs| >= Run(Start(others), ops).chain.count
    ensures var w := Run(Start(others), ops);
            var o := ReleaseAll(w.chain, w.ledger, rs);
            Shaped(o.chain) && CleanRelease(w.chain, o, rs, others)
  {
    hide Reachable, Run, LegalRun, Start, CleanRelease, ReleaseAll;
    StartIsReachable(others);
    RunKeeps(Start(others), ops, others);
    CleanFrom(Run(Start(others), ops), rs, others);
  }

  lemma CleanFrom(w: World, rs: seq<ReleaseReply>, others: Ledger)
    requires Reachable(w, others) && |rs| >= w.chain.count
    ensures var o := ReleaseAll(w.chain, w.ledger, rs); Shaped(o.chain) && CleanRelease(w.chain, o, rs, others)
  {
    hide Accounted, ReleaseAll, AllClear;
    ReleaseKeeps(w.chain, w.ledger, rs, others);
    WillingSlotsFreed(w.chain, w.ledger, rs);
    ReleaseSucceedsIff(w.chain, w.ledger, rs);
  }

  lemma ReleaseSucceedsIff(c: Chain, l: Ledger, rs: seq<ReleaseReply>)
    requires Shaped(c) && |rs| >= c.count
    ensures ReleaseAll(c, l, rs).rc == Success <==> AllClear(c.slots, rs, 0, c.count)
  {
    hide ReleaseFrom, AllClear;
    SucceedsIffAllClear(c.slots, c.count, l, rs, 0, Success);
  }

  lemma WillingSlotsFreed(c: Chain, l: Ledger, rs: seq<ReleaseReply>)
    requires Shaped(c) && c.count <= |rs|
    ensures var d := ReleaseAll(c, l, rs).chain;
            |d.slots| == BATCH_MAX &&
            forall k | 0 <= k < c.count && !c.slots[k].uncertain && Willing(rs[k]) :: d.slots[k] == EMPTY_SLOT
  {
    SlotsKeepTheirNumber(c.slots, c.count, l, rs, 0, Success);
    forall k | 0 <= k < c.count && !c.slots[k].uncertain && Willing(rs[k])
      ensures ReleaseFrom(c.slots, c.count, l, rs, 0, Success).0[k] == EMPTY_SLOT
    {
      EachSlotReleasedAlone(c.slots, c.count, l, rs, 0, Success, k);
    }
  }

  lemma {:induction false} SlotsKeepTheirNumber(slots: seq<Slot>, count: nat, l: Ledger, rs: seq<ReleaseReply>, i: nat,
      rc: VkResult)
    requires i <= count <= |slots| && count <= |rs|
    ensures |ReleaseFrom(slots, count, l, rs, i, rc).0| == |slots|
    decreases count - i
  {
    if i < count {
      var one := CommandArenas.Release(slots[i], l, rs[i]);
      SlotsKeepTheirNumber(slots[i := one.0], count, one.1, rs, i + 1, if one.2 == Success then rc else one.2);
    }
  }

  /** An uncertain record survives every later run unchanged. */
  lemma {:induction false} UncertainIsNeverForgotten(w: World, ops: seq<Op>, others: Ledger, k: nat)
    requires Reachable(w, others) && LegalRun(w, ops) && k < w.chain.count && w.chain.slots[k].uncertain
    ensures var w' := Run(w, ops);
            k < w'.chain.count && w'.chain.count <= |w'.chain.slots| && w'.chain.slots[k] == w.chain.slots[k]
    decreases |ops|
  {
    if ops != [] {
      StepKeeps(w, ops[0], others);
      UncertainStep(w, ops[0], others, k);
      UncertainIsNeverForgotten(Step(w, ops[0]).0, ops[1..], others, k);
    }
  }

  lemma UncertainStep(w: World, op: Op, others: Ledger, k: nat)
    requires Reachable(w, others) && Legal(w, op) && k < w.chain.count && w.chain.slots[k].uncertain
    ensures var c := Step(w, op).0.chain; Shaped(c) && k < c.count && c.slots[k] == w.chain.slots[k]
  {
    if op.DoRelease? {
      ReleaseKeeps(w.chain, w.ledger, op.replies, others);
    } else if op.DoReserve? {
      ReserveKeepsSlots(w.chain, w.ledger, op.need, op.reply, k);
    } else if op.DoRetry? {
      ReserveKeepsSlots(w.chain, w.ledger, PAYLOAD_WORDS, op.reply, k);
    }
  }

  lemma ReserveKeepsSlots(c: Chain, l: Ledger, need: nat, r: CreateReply, k: nat)
    requires Shaped(c) && k < c.count
    ensures var d := Reserve(c, l, need, r).chain; Shaped(d) && k < d.count && d.slots[k] == c.slots[k]
  {
  }

  /** After a successful release the chain opens again as the first time, and if the
      kernel grants the arena, with all of it to write in. */
  lemma ReleasedChainReopens(others: Ledger, ops: seq<Op>, rs: seq<ReleaseReply>, serial: nat, r: CreateReply)
    requires Backed(others) && LegalRun(Start(others), ops)
    requires |rs| >= Run(Start(others), ops).chain.count
    requires var w := Run(Start(others), ops); ReleaseAll(w.chain, w.ledger, rs).rc == Success
    ensures var w := Run(Start(others), ops);
            var o := ReleaseAll(w.chain, w.ledger, rs);
            && Shaped(o.chain) && Open(o.chain, o.ledger, serial, r) == Open(Start(others).chain, others, serial, r)
            && var again := Open(o.chain, o.ledger, serial, r);
               serial != 0 && Admissible(o.ledger, r) ==>
                 && (again.rc == Success <==> r.range.ok && Usable(r.range.at) && r.memory.ok && r.map_.Done?)
                 && (again.rc == Success ==> Writable(again.chain) && Room(again.chain) == PAYLOAD_WORDS + TAIL_WORDS)
  {
    hide Reachable, Run, LegalRun;
    ReleaseFreesAllButUncertain(others, ops, rs);
    if serial != 0 && Admissible(others, r) {
      FirstOpenSucceedsIff(others, serial, r);
    }
  }

  lemma FirstOpenSucceedsIff(others: Ledger, serial: nat, r: CreateReply)
    requires Backed(others) && serial != 0 && Admissible(others, r)
    ensures var o := Open(EmptyChain(0, 0), others, serial, r);
            && (o.rc == Success <==> r.range.ok && Usable(r.range.at) && r.memory.ok && r.map_.Done?)
            && (o.rc == Success ==> Writable(o.chain) && Room(o.chain) == PAYLOAD_WORDS + TAIL_WORDS)
  {
  }

  // ----- the one state a caller must not write in

  /** A chain released before it was closed, while one of its records has to
      stay, keeps its cursor, and a later reserve through it is granted. */
  lemma StaleCursorIsGranted(others: Ledger, serial: Long, r: CreateReply, rs: seq<ReleaseReply>, need: nat)
    requires Backed(others) && Admissible(others, r) && serial != 0
    requires r.range.ok && Usable(r.range.at) && r.memory.ok && r.map_.Done?
    requires |rs| >= 1 && rs[0].unmap.Refused? && need <= PAYLOAD_WORDS
    ensures var w1 := Step(Start(others), DoOpen(serial, r)).0;
            && Shaped(w1.chain) && w1.chain.count == 1
            && var w2 := Step(w1, DoRelease(rs)).0;
               Stale(w2) && Shaped(w2.chain) && Step(w2, DoReserve(need, r)) == (w2, Success)
  {
    var w1 := Step(Start(others), DoOpen(serial, r)).0;
    var c := w1.chain;
    var one := CommandArenas.Release(c.slots[0], w1.ledger, rs[0]);
    assert one.2 == DeviceLost;
    assert ReleaseFrom(c.slots, 1, w1.ledger, rs, 0, Success)
        == ReleaseFrom(c.slots[0 := one.0], 1, one.1, rs, 1, DeviceLost);
  }

  /** That is exactly when it happens: an arena is open and some record does not
      clear. */
  lemma StaleIffReleasedOpen(w: World, rs: seq<ReleaseReply>)
    requires Shaped(w.chain) && |rs| >= w.chain.count
    ensures Stale(Step(w, DoRelease(rs)).0) <==>
      Writable(w.chain) && exists k | 0 <= k < w.chain.count :: !Clears(w.chain.slots[k], rs[k])
  {
    hide ReleaseFrom, Clears;
    SlotsKeepTheirNumber(w.chain.slots, w.chain.count, w.ledger, rs, 0, Success);
    SucceedsIffAllClear(w.chain.slots, w.chain.count, w.ledger, rs, 0, Success);
  }
}
