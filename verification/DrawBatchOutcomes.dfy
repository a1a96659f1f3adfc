/** When the calls of the chain succeed, from the state they find and from what the
    kernel answers. */
module DrawBatchOutcomes {
  import opened Words
  import opened CommandArenas
  import opened ArenaOwnership
  import opened DrawBatch
  import opened DrawBatchRuns
  import opened DrawBatchProperties
  import opened DrawBatchCapacity

  /** Starting an arena goes through exactly when there are fewer than 512 and the
      kernel grants its creation. */
  lemma StartOutcome(c: Chain, l: Ledger, r: CreateReply, parts: seq<seq<seq<Word>>>, others: Ledger)
    requires InService(c, parts) && c.cursor.Null? && c.count == |parts| && Pristine(c.slots, c.count) && c.serial != 0
    requires Accounted(c.slots, others, l) && Admissible(l, r)
    ensures var o, calls := StartArena(c, l, r), StartCalls(c, r);
            && (o.rc == Success <==> c.count < 512 && Created(calls))
            && (o.rc == Success || o.rc == OutOfDeviceMemory || o.rc == DeviceLost)
            && (c.count == 512 ==> o.rc == OutOfDeviceMemory && calls == [])
  {
    hide Accounted, Framed, CreateCalls;
    StartKeeps(c, l, r, parts, others);
    if c.count < BATCH_MAX {
      CallsDecideCreate(c.slots[c.count], l, r);
      CreateIsKnown(l, r);
    }
  }

  lemma CreateIsKnown(l: Ledger, r: CreateReply)
    ensures var rc := Create(EMPTY_SLOT, l, r).2; rc == Success || rc == OutOfDeviceMemory || rc == DeviceLost
  {
  }

  /** Opening succeeds exactly on an unused chain, with a serial, when the kernel
      grants the first arena. */
  lemma OpenOutcome(w: World, serial: Long, r: CreateReply, others: Ledger)
    requires Reachable(w, others) && Admissible(w.ledger, r)
    ensures var o, calls := Open(w.chain, w.ledger, serial, r), OpenCalls(w.chain, serial, r);
            && (o.rc == Success <==> serial != 0 && w.chain.count == 0 && Created(calls))
            && (o.rc == Success ==>
                  Writable(o.chain) && o.chain.count == 1 && Room(o.chain) == PAYLOAD_WORDS + TAIL_WORDS)
            && (o.rc == Unknown <==> serial == 0 || w.chain.count != 0)
            && (o.rc == Unknown ==> o.chain == w.chain && o.ledger == w.ledger && calls == [])
  {
    hide Accounted, CreateCalls;
    if serial != 0 && w.chain.count == 0 {
      OpenedHasRoom(w.chain, w.ledger, serial, r, others);
      CallsDecideCreate(EMPTY_SLOT, w.ledger, r);
      CreateIsKnown(w.ledger, r);
    }
  }

  /** Reserving succeeds exactly when the need is at most what an arena carries and
      either fits behind the cursor with the tail, and then nothing changes, or the
      tail is free, there are fewer than 512 arenas and the kernel grants the next;
      an arena is sealed in the second case only. */
  lemma ReserveOutcome(w: World, need: nat, r: CreateReply, others: Ledger)
    requires Reachable(w, others) && !w.released && Admissible(w.ledger, r) && Writable(w.chain)
    ensures var c := w.chain;
            var o, calls := Reserve(c, w.ledger, need, r), ReserveCalls(c, need, r);
            && (need > 32734 <==> o.rc == OutOfHostMemory)
            && (need > 32734 || Room(c) >= need + 8 ==> o.chain == c && o.ledger == w.ledger && calls == [])
            && (need <= 32734 && Room(c) >= need + 8 ==> o.rc == Success)
            && (need <= 32734 && Room(c) < 8 <==> o.rc == Unknown)
            && (o.rc == Unknown ==> o.chain == c && o.ledger == w.ledger && calls == [])
            && (need <= 32734 && 8 <= Room(c) < need + 8 ==>
                  && (o.rc == Success <==> c.count < 512 && Created(calls))
                  && o.chain.closed == c.closed + 1 && (c.count == 512 ==> o.rc == OutOfDeviceMemory && calls == []))
  {
    hide Accounted, CreateCalls, Created;
    var c := w.chain;
    assert Live(c.slots[c.count - 1]);
    SealNeedsOnlyRoom(c);
    ReserveKeeps(c, w.ledger, need, r, w.parts, others);
    if need <= PAYLOAD_WORDS && TAIL_WORDS <= Room(c) < need + TAIL_WORDS {
      SealKeeps(c, w.parts);
      StartOutcome(Sealed(c), w.ledger, r, w.parts, others);
      StartKeeps(Sealed(c), w.ledger, r, w.parts, others);
    }
  }

  /** A retry succeeds exactly from the cursor of an arena that holds something and
      still has its tail, when there are fewer than 512 arenas and the kernel grants
      the next one. */
  lemma RetryOutcome(w: World, origin: Pointer, r: CreateReply, others: Ledger)
    requires Reachable(w, others) && !w.released && Admissible(w.ledger, r)
    ensures var c := w.chain;
            var (o, moved) := Retry(c, w.ledger, origin, r);
            var calls := RetryCalls(c, origin, r);
            && (o.rc == Success <==>
                  && Writable(c) && origin == c.cursor && c.cursor.word > 10 && Room(c) >= 8
                  && c.count < 512 && Created(calls))
            && (o.rc == Success ==> Shaped(o.chain) && moved == o.chain.cursor && o.chain.closed == c.closed + 1)
            && (o.rc != Success ==> moved == origin)
  {
    hide Accounted, CreateCalls, Created, Reserve;
    var c := w.chain;
    if c.cursor.At? {
      CarriedAtLeastAcquire(c, w.parts);
      ReserveOutcome(w, PAYLOAD_WORDS, r, others);
      ReserveKeeps(c, w.ledger, PAYLOAD_WORDS, r, w.parts, others);
    }
  }

  lemma {:induction false} CallsOfRecord(slots: seq<Slot>, rs: seq<ReleaseReply>, n: nat)
    requires n <= |slots| && n <= |rs| && forall i | 0 <= i < n :: !slots[i].uncertain
    ensures AllAgreed(ReleaseAllCalls(slots, rs, n)) <==>
      forall i | 0 <= i < n :: AllAgreed(ReleaseCalls(slots[i], rs[i]))
  {
    hide ReleaseCalls, AllAgreed;
    if n == 0 {
      NoCalls();
    } else {
      CallsOfRecord(slots, rs, n - 1);
      AgreedAppend(ReleaseAllCalls(slots, rs, n - 1), ReleaseCalls(slots[n - 1], rs[n - 1]));
    }
  }

  lemma NoCalls()
    ensures AllAgreed([])
  {
  }

  lemma AgreedAppend(a: seq<Call>, b: seq<Call>)
    ensures AllAgreed(a + b) <==> AllAgreed(a) && AllAgreed(b)
  {
    assert forall i | 0 <= i < |a| :: a[i] == (a + b)[i];
    assert forall i | 0 <= i < |b| :: b[i] == (a + b)[|a| + i];
  }

  lemma {:induction false} SucceedsIffAgreed(slots: seq<Slot>, count: nat, l: Ledger, rs: seq<ReleaseReply>, i: nat,
      rc: VkResult)
    requires i <= count <= |slots| && count <= |rs|
    ensures ReleaseFrom(slots, count, l, rs, i, rc).2 == Success <==>
      rc == Success && forall k | i <= k < count :: !slots[k].uncertain && AllAgreed(ReleaseCalls(slots[k], rs[k]))
    decreases count - i
  {
    hide CommandArenas.Release, ReleaseCalls, AllAgreed;
    if i < count {
      var one := CommandArenas.Release(slots[i], l, rs[i]);
      CallsDecideRelease(slots[i], l, rs[i]);
      var rest := slots[i := one.0];
      SucceedsIffAgreed(rest, count, one.1, rs, i + 1, if one.2 == Success then rc else one.2);
      assert forall k | i + 1 <= k < count :: rest[k] == slots[k];
    }
  }

  /** Releasing the chain succeeds exactly when no record is uncertain and the kernel
      agrees to every call that was made. */
  lemma ReleaseOutcome(c: Chain, l: Ledger, rs: seq<ReleaseReply>)
    requires Shaped(c) && |rs| >= c.count
    ensures ReleaseAll(c, l, rs).rc == Success <==>
      && (forall k | 0 <= k < c.count :: !c.slots[k].uncertain)
      && AllAgreed(ReleaseAllCalls(c.slots, rs, c.count))
  {
    hide ReleaseFrom, ReleaseCalls, AllAgreed;
    SucceedsIffAgreed(c.slots, c.count, l, rs, 0, Success);
    if forall k | 0 <= k < c.count :: !c.slots[k].uncertain {
      CallsOfRecord(c.slots, rs, c.count);
    }
  }

  // ----- what the packets and the ranges must be like

  predicate Within(b: nat, start: nat, bytes: nat) { start <= b < start + bytes }

  /** The release writer refuses what it cannot write or the GPU cannot signal: no
      room, no serial, a label that is not a 64-bit word below the address limit, or
      one that shares a byte with the packet. */
  lemma ReleaseRefusedIff(start: nat, room: nat, label_: nat, serial: nat)
    ensures ReleaseRefused(start, room, label_, serial) <==>
      || room < 8 || serial == 0 || label_ == 0 || label_ % 8 != 0 || label_ + 8 > 0x1_0000_0000_0000
      || start + 32 >= U64
      || exists b: nat :: Within(b, start, 32) && Within(b, label_, 8)
  {
    if label_ < start + 32 && label_ + 8 > start {
      var b := if start < label_ then label_ else start;
      assert Within(b, start, 32) && Within(b, label_, 8);
    }
  }

  /** Ranges that are apart share no byte. */
  lemma ApartIff(a: nat, b: nat)
    ensures Apart(a, b) <==> forall x: nat :: !(Within(x, a, 0x2_0000) && Within(x, b, 0x2_0000))
  {
    if !Apart(a, b) {
      var x := if a < b then b else a;
      assert Within(x, a, 0x2_0000) && Within(x, b, 0x2_0000);
    }
  }

  /** A range is usable when it is 128 KiB from a multiple of 64 KiB on, below the
      address limit and not at zero. */
  lemma UsableIff(address: nat)
    ensures Usable(address) <==> 0 < address && address % 0x1_0000 == 0 && address + 0x2_0000 <= 0x1_0000_0000_0000
  {
  }

  /** Nothing is sealed into an arena that is not mapped, whatever has become of the
      chain: closing and splitting are refused and change nothing. */
  lemma UnmappedIsNeverSealed(c: Chain, l: Ledger, need: nat, r: CreateReply)
    requires Writable(c) && (!c.slots[c.count - 1].mapped || c.slots[c.count - 1].uncertain)
    ensures Close(c, l) == Outcome(c, l, Unknown)
    ensures Reserve(c, l, need, r).chain == c && Reserve(c, l, need, r).ledger == l && ReserveCalls(c, need, r) == []
  {
  }
}
