/** The chain of native/draw_batch_ps5.c on its fields and arrays. Every method
    is proved to do what the function of the same name in DrawBatch says. */
module DrawBatchChains {
  import opened Words
  import opened CommandArenas
  import opened ArenaOwnership
  import opened ArenaObjects
  import opened P = DrawBatch

  /** Returns the words written, or zero and nothing written. */
  method GraphicsAcquire(out: array<Word>, at: nat, capacity: nat) returns (n: nat)
    requires at + capacity <= out.Length
    modifies out
    ensures n == if capacity < ACQUIRE_WORDS then 0 else ACQUIRE_WORDS
    ensures out[..] == if n == 0 then old(out[..]) else Overwrite(old(out[..]), at, ACQUIRE)
  {
    if capacity < ACQUIRE_WORDS {
      return 0;
    }
    CopyInto(out, at, ACQUIRE);
    n := ACQUIRE_WORDS;
  }

  /** `start` is the address of out[at]. */
  method GraphicsRelease(out: array<Word>, at: nat, capacity: nat, start: nat, label_: nat, serial: nat)
    returns (n: nat)
    requires at + capacity <= out.Length
    modifies out
    ensures n == if ReleaseRefused(start, capacity, label_, serial) then 0 else RELEASE_WORDS
    ensures out[..] == if n == 0 then old(out[..]) else Overwrite(old(out[..]), at, ReleasePacket(label_, serial))
  {
    if capacity < RELEASE_WORDS || serial == 0 || label_ == 0 || label_ % 8 != 0 || label_ > ADDRESS_LIMIT - 8 {
      return 0;
    }
    if start > SIZE_MAX - 32 || (label_ < start + 32 && label_ + 8 > start) {
      return 0;
    }
    CopyInto(out, at, ReleasePacket(label_, serial));
    n := RELEASE_WORDS;
  }

  /** One more slot at the end of the release loop. */
  lemma {:induction false} ReleaseFromSnoc(slots: seq<Slot>, count: nat, l: Ledger, rs: seq<ReleaseReply>, i: nat,
      rc: VkResult, r: ReleaseReply)
    requires i <= count < |slots| && count == |rs|
    ensures var before := ReleaseFrom(slots, count, l, rs, i, rc);
            |before.0| == |slots| &&
            var one := CommandArenas.Release(before.0[count], before.1, r);
            ReleaseFrom(slots, count + 1, l, rs + [r], i, rc)
            == (before.0[count := one.0], one.1, if one.2 == Success then before.2 else one.2)
    decreases count - i
  {
    if i < count {
      var one := CommandArenas.Release(slots[i], l, rs[i]);
      ReleaseFromSnoc(slots[i := one.0], count, one.1, rs, i + 1, if one.2 == Success then rc else one.2, r);
      assert (rs + [r])[i] == rs[i];
    } else {
      var one := CommandArenas.Release(slots[i], l, r);
      var next := ReleaseFrom(slots[i := one.0], i + 1, one.1, rs + [r], i + 1, if one.2 == Success then rc else one.2);
      assert next.0 == slots[i := one.0];
    }
  }

  lemma {:induction false} SameReplies(slots: seq<Slot>, a: seq<ReleaseReply>, b: seq<ReleaseReply>, n: nat)
    requires n <= |slots| && n <= |a| && n <= |b| && a[..n] == b[..n]
    ensures ReleaseAllCalls(slots, a, n) == ReleaseAllCalls(slots, b, n)
  {
    if n > 0 {
      assert a[..n - 1] == a[..n][..n - 1] == b[..n - 1] && a[n - 1] == a[..n][n - 1] == b[n - 1];
      SameReplies(slots, a, b, n - 1);
    }
  }

  lemma NoneReleased(slots: seq<Slot>, l: Ledger, rs: seq<ReleaseReply>)
    ensures ReleaseFrom(slots, 0, l, rs, 0, Success) == (slots, l, Success)
  {
  }

  lemma CallsSnoc(slots: seq<Slot>, rs: seq<ReleaseReply>, r: ReleaseReply)
    requires |rs| < |slots|
    ensures ReleaseAllCalls(slots, rs + [r], |rs| + 1)
            == ReleaseAllCalls(slots, rs, |rs|) + ReleaseCalls(slots[|rs|], r)
  {
    hide ReleaseCalls;
    SameReplies(slots, rs + [r], rs, |rs|);
  }

  class DrawBatchChain {
    const arenas: seq<CommandArena>
    const words: array<Word>
    var count: nat
    var closed: nat
    var serial: nat
    var cursor: Pointer
    var end: Pointer
    var reserve: nat
    /** What the fields stand for. */
    ghost var model: Chain

    ghost predicate Fields()
      reads this
    {
      && count == model.count && closed == model.closed && serial == model.serial
      && cursor == model.cursor && end == model.end && reserve == model.reserve
    }

    ghost predicate Records()
      reads this, arenas
      requires Shaped(model)
    {
      && |arenas| == BATCH_MAX
      && (forall i, j | 0 <= i < j < |arenas| :: arenas[i] != arenas[j])
      && (forall i | 0 <= i < |arenas| :: arenas[i].View() == model.slots[i])
    }

    ghost predicate Memory()
      reads this, arenas, set a | a in arenas :: a.memory
      requires Shaped(model) && |arenas| == BATCH_MAX
    {
      && (forall i | 0 <= i < BATCH_MAX :: arenas[i].memory != words)
      && (forall i | 0 <= i < BATCH_MAX && arenas[i].mapped :: arenas[i].memory[..] == model.memory[i])
      && (forall i, j | 0 <= i < j < BATCH_MAX :: arenas[i].memory != arenas[j].memory)
    }

    ghost predicate Valid()
      reads this, words, arenas, set a | a in arenas :: a.memory
    {
      && Shaped(model) && Sound(model)
      && Fields() && Records() && Memory() && words[..] == model.words
    }

    /** Nothing but arena i has changed. */
    twostate predicate OnlyArena(i: nat)
      reads this, arenas, set a | a in arenas :: a.memory
    {
      forall j | 0 <= j < |arenas| && j != i ::
        && arenas[j].View() == old(arenas[j].View())
        && arenas[j].memory == old(arenas[j].memory)
        && arenas[j].memory[..] == old(arenas[j].memory[..])
    }

    twostate lemma ValidAfter(i: nat)
      requires old(Valid()) && i < BATCH_MAX
      requires Shaped(model) && Sound(model) && Fields() && words[..] == model.words
      requires OnlyArena(i) && arenas[i].View() == model.slots[i]
      requires forall j | 0 <= j < BATCH_MAX && j != i ::
        model.slots[j] == old(model).slots[j] && model.memory[j] == old(model).memory[j]
      requires arenas[i].mapped ==> arenas[i].memory[..] == model.memory[i]
      requires arenas[i].memory == old(arenas[i].memory) || fresh(arenas[i].memory)
      ensures Valid()
    {
    }

    /** The index of the open arena, or none. */
    method OpenArena() returns (k: Option<nat>)
      requires Valid()
      ensures k == if HasOpenArena(model) then Some(model.count - 1) else None
    {
      if count > 0 && closed < count {
        k := Some(count - 1);
      } else {
        k := None;
      }
    }

    /** Creates the next arena and puts the cursor at its first word. */
    method CreateNext(k: Kernel) returns (rc: VkResult, ghost r: CreateReply)
      requires Valid() && model.count < BATCH_MAX && model.cursor.Null?
      modifies this, k, arenas[count]
      ensures Valid() && Admissible(old(k.ledger), r)
      ensures var made := CommandArenas.Create(old(model).slots[old(count)], old(k.ledger), r);
              && rc == made.2 && k.ledger == made.1
              && model == if rc == Success then Adopt(old(model), made.0) else KeepFailed(old(model), made.0)
      ensures k.asked == old(k.asked) + CreateCalls(old(model).slots[old(count)], r)
      ensures rc == Success ==> fresh(arenas[old(count)].memory)
      ensures rc != Success ==> arenas[old(count)].memory == old(arenas[count].memory)
    {
      hide Repeat, Rollback, CreateCalls, CommandArenas.Create;
      var a := arenas[count];
      rc, r := a.Create(k);
      ghost var made := CommandArenas.Create(model.slots[count], old(k.ledger), r);
      if rc != Success {
        model := KeepFailed(model, made.0);
        if a.uncertain || a.reserved || a.backed || a.mapped {
          count := count + 1;
        }
      } else {
        model := Adopt(model, made.0);
        count := count + 1;
        cursor := At(count - 1, 0);
        end := At(count - 1, ARENA_WORDS);
        assert a.memory[..] == Zeroed();
      }
      ValidAfter(old(count));
    }

    method StartArena(k: Kernel) returns (rc: VkResult, ghost r: CreateReply)
      requires Valid() && model.cursor.Null?
      modifies this, k, arenas
      ensures Valid() && Admissible(old(k.ledger), r)
      ensures Outcome(model, k.ledger, rc) == P.StartArena(old(model), old(k.ledger), r)
      ensures k.asked == old(k.asked) + StartCalls(old(model), r)
      ensures forall a | a in arenas :: a.memory == old(a.memory) || fresh(a.memory)
    {
      hide CreateCalls, Repeat;
      if count >= BATCH_MAX {
        r := CreateReply(Grant(false, 0), Grant(false, 0), Done, ReleaseReply(Done, Done, Done));
        return OutOfDeviceMemory, r;
      }
      rc, r := CreateNext(k);
      if rc != Success {
        return;
      }
      ghost var before := model;
      var a := arenas[count - 1];
      var n := GraphicsAcquire(a.memory, cursor.word, end.word - cursor.word);
      if n == 0 {
        rc := Unknown;
        return;
      }
      cursor := At(count - 1, cursor.word + n);
      model := Write(before, ACQUIRE);
      ValidAfter(old(count));
    }

    constructor ()
      ensures Valid() && model == EmptyChain(0, 0) && fresh(words) && fresh(arenas)
      ensures forall a | a in arenas :: fresh(a.memory)
    {
      hide Repeat;
      count, closed, serial, reserve := 0, 0, 0, 0;
      cursor, end := Null, Null;
      model := EmptyChain(0, 0);
      var made: seq<CommandArena> := [];
      while |made| < BATCH_MAX
        invariant |made| <= BATCH_MAX
        invariant forall a | a in made :: fresh(a) && fresh(a.memory) && a.View() == EMPTY_SLOT
        invariant forall i, j | 0 <= i < j < |made| :: made[i] != made[j] && made[i].memory != made[j].memory
      {
        var a := new CommandArena();
        made := made + [a];
      }
      arenas := made;
      words := new Word[BATCH_MAX](_ => 0);
      new;
      assert words[..] == model.words;
    }

    /** Erases every field; the memory behind the records is no longer named. */
    method Zero()
      requires Valid()
      modifies this, words, arenas
      ensures Valid() && model == EmptyChain(0, 0)
    {
      hide Repeat;
      var i := 0;
      while i < BATCH_MAX
        invariant i <= BATCH_MAX && |arenas| == BATCH_MAX && words.Length == BATCH_MAX
        invariant forall k | 0 <= k < i :: arenas[k].View() == EMPTY_SLOT && words[k] == 0
        invariant forall k | 0 <= k < BATCH_MAX :: arenas[k].memory == old(arenas[k].memory)
      {
        arenas[i].Clear();
        words[i] := 0;
        i := i + 1;
      }
      count, closed, serial, reserve := 0, 0, 0, 0;
      cursor, end := Null, Null;
      model := EmptyChain(0, 0);
      assert words[..] == model.words;
      assert Records() && Memory();
    }

    method Open(k: Kernel, serial_: Long) returns (rc: VkResult, ghost r: CreateReply)
      requires Valid()
      modifies this, words, k, arenas
      ensures Valid() && Admissible(old(k.ledger), r)
      ensures Outcome(model, k.ledger, rc) == P.Open(old(model), old(k.ledger), serial_, r)
      ensures k.asked == old(k.asked) + OpenCalls(old(model), serial_, r)
    {
      if serial_ == 0 || count != 0 {
        r := CreateReply(Grant(false, 0), Grant(false, 0), Done, ReleaseReply(Done, Done, Done));
        return Unknown, r;
      }
      Zero();
      serial := serial_;
      reserve := INITIAL_RESERVE;
      model := EmptyChain(serial_, INITIAL_RESERVE);
      rc, r := StartArena(k);
    }

    /** Writes the release packet of the open arena at the cursor, if it can. */
    method WriteRelease() returns (n: nat)
      requires Valid() && Writable(model)
      requires var s := model.slots[model.count - 1]; s.mapped && !s.uncertain
      modifies this`model, arenas[count - 1].memory
      ensures Valid() && n == if SealRefused(old(model)) then 0 else RELEASE_WORDS
      ensures model == if n == 0 then old(model)
                       else Scribble(old(model), ReleasePacket(Label(model.slots[model.count - 1]), model.serial))
    {
      var a := arenas[count - 1];
      var label_ := a.address + ARENA_BYTES - 64;
      n := GraphicsRelease(a.memory, cursor.word, end.word - cursor.word, a.address + 4 * cursor.word, label_, serial);
      if n != 0 {
        model := Scribble(model, ReleasePacket(label_, serial));
      }
      ValidAfter(count - 1);
    }

    /** Notes how many words the open arena holds and leaves it. */
    method RecordLength(n: Word)
      requires Valid() && HasOpenArena(model)
      modifies this, words
      ensures Valid()
      ensures var c := old(model);
              var lengths := c.words[c.count - 1 := n];
              model == Chain(c.slots, c.memory, lengths, c.count, c.closed + 1, c.serial, Null, Null, c.reserve)
    {
      words[count - 1] := n;
      closed := closed + 1;
      cursor, end := Null, Null;
      ghost var lengths := model.words[count - 1 := n];
      model := Chain(model.slots, model.memory, lengths, count, closed, serial, Null, Null, reserve);
      assert words[..] == model.words;
    }

    method SealArena(k: Kernel) returns (rc: VkResult)
      requires Valid()
      modifies this, words, set a | a in arenas :: a.memory
      ensures Valid() && Outcome(model, k.ledger, rc) == P.SealArena(old(model), k.ledger)
      ensures forall a | a in arenas :: a.memory == old(a.memory)
    {
      hide ReleaseRefused, ReleasePacket, Overwrite, Repeat;
      var open := OpenArena();
      if open.None? || cursor.Null? {
        return Unknown;
      }
      var a := arenas[open.value];
      if !a.mapped || a.uncertain {
        return Unknown;
      }
      var n := WriteRelease();
      if n == 0 {
        return Unknown;
      }
      RecordLength(cursor.word + n);
      rc := Success;
    }

    method Reserve(k: Kernel, need: nat) returns (rc: VkResult, ghost r: CreateReply)
      requires Valid()
      modifies this, words, k, arenas, set a | a in arenas :: a.memory
      ensures Valid() && Admissible(old(k.ledger), r)
      ensures Outcome(model, k.ledger, rc) == P.Reserve(old(model), old(k.ledger), need, r)
      ensures k.asked == old(k.asked) + ReserveCalls(old(model), need, r)
    {
      hide CreateCalls, CommandArenas.Create, Repeat;
      r := CreateReply(Grant(false, 0), Grant(false, 0), Done, ReleaseReply(Done, Done, Done));
      var open := OpenArena();
      if open.None? || cursor.Null? {
        return Unknown, r;
      }
      if need > ARENA_WORDS - ACQUIRE_WORDS - TAIL_WORDS {
        return OutOfHostMemory, r;
      }
      if end.word - cursor.word >= need + TAIL_WORDS {
        return Success, r;
      }
      rc := SealArena(k);
      if rc != Success {
        return;
      }
      rc, r := StartArena(k);
      if rc != Success {
        return;
      }
      rc := if end.word - cursor.word >= need + TAIL_WORDS then Success else OutOfHostMemory;
    }

    method Retry(k: Kernel, origin: Pointer) returns (rc: VkResult, moved: Pointer, ghost r: CreateReply)
      requires Valid()
      modifies this, words, k, arenas, set a | a in arenas :: a.memory
      ensures Valid() && Admissible(old(k.ledger), r)
      ensures (Outcome(model, k.ledger, rc), moved) == P.Retry(old(model), old(k.ledger), origin, r)
      ensures k.asked == old(k.asked) + RetryCalls(old(model), origin, r)
    {
      moved := origin;
      var open := OpenArena();
      if open.None? || origin.Null? || origin != cursor || cursor == At(count - 1, ACQUIRE_WORDS) {
        r := CreateReply(Grant(false, 0), Grant(false, 0), Done, ReleaseReply(Done, Done, Done));
        return Unknown, moved, r;
      }
      rc, r := Reserve(k, ARENA_WORDS - ACQUIRE_WORDS - TAIL_WORDS);
      if rc == Success {
        moved := cursor;
      }
    }

    method Measured(n: nat)
      requires Valid()
      modifies this`reserve, this`model
      ensures Valid() && model == P.Measured(old(model), n)
    {
      if n > reserve {
        reserve := n;
        model := P.Measured(model, n);
      }
    }

    method Close(k: Kernel) returns (rc: VkResult)
      requires Valid()
      modifies this, words, set a | a in arenas :: a.memory
      ensures Valid() && Outcome(model, k.ledger, rc) == P.Close(old(model), k.ledger)
    {
      var open := OpenArena();
      if open.None? {
        return Unknown;
      }
      rc := SealArena(k);
    }

    /** A caller writing one whole emission at the cursor, or nothing. */
    method Emit(ws: seq<Word>) returns (rc: VkResult)
      requires Valid() && Writable(model) && arenas[model.count - 1].mapped
      modifies this, set a | a in arenas :: a.memory
      ensures Valid()
      ensures if |ws| <= Room(old(model)) then rc == Success && model == Write(old(model), ws)
              else rc == OutOfHostMemory && model == old(model)
    {
      if |ws| > end.word - cursor.word {
        return OutOfHostMemory;
      }
      var a := arenas[count - 1];
      CopyInto(a.memory, cursor.word, ws);
      cursor := At(cursor.arena, cursor.word + |ws|);
      model := Write(model, ws);
      ValidAfter(count - 1);
      rc := Success;
    }

    /** `others` is what the kernel holds for the rest of the process. */
    method Release(k: Kernel, ghost others: Ledger) returns (rc: VkResult, ghost rs: seq<ReleaseReply>)
      requires Valid() && Accounted(model.slots, others, k.ledger)
      modifies this, words, k, arenas
      ensures Valid() && |rs| == old(model).count
      ensures Outcome(model, k.ledger, rc) == P.ReleaseAll(old(model), old(k.ledger), rs)
      ensures k.asked == old(k.asked) + ReleaseAllCalls(old(model).slots, rs, |rs|)
    {
      hide ReleaseCalls, ReleaseFrom, Accounted;
      rc, rs := Success, [];
      ghost var first := model;
      NoneReleased(first.slots, k.ledger, rs);
      var i := 0;
      while i < count
        invariant i <= count == first.count && |rs| == i
        invariant Valid() && Accounted(model.slots, others, k.ledger)
        invariant (model.slots, k.ledger, rc) == ReleaseFrom(first.slots, i, old(k.ledger), rs, 0, Success)
        invariant model == first.(slots := model.slots)
        invariant forall a | a in arenas :: a.memory == old(a.memory)
        invariant forall j | i <= j < BATCH_MAX :: model.slots[j] == first.slots[j]
        invariant k.asked == old(k.asked) + ReleaseAllCalls(first.slots, rs, i)
      {
        ghost var done := rs;
        rc, rs := ReleaseOne(k, i, rc, rs, first, old(k.ledger), others);
        CallsSnoc(first.slots, done, rs[i]);
        i := i + 1;
      }
      if rc == Success {
        Zero();
      }
    }

    /** One turn of the release loop; `last` is the last failure met so far. */
    method ReleaseOne(k: Kernel, i: nat, last: VkResult, ghost done: seq<ReleaseReply>, ghost first: Chain,
        ghost start: Ledger, ghost others: Ledger) returns (rc: VkResult, ghost rs: seq<ReleaseReply>)
      requires Valid() && Accounted(model.slots, others, k.ledger) && i < model.count && |done| == i
      requires Shaped(first) && model == first.(slots := model.slots)
      requires (model.slots, k.ledger, last) == ReleaseFrom(first.slots, i, start, done, 0, Success)
      modifies this`model, k, arenas[i]
      ensures Valid() && Accounted(model.slots, others, k.ledger) && |rs| == i + 1
      ensures model == first.(slots := model.slots)
      ensures (model.slots, k.ledger, rc) == ReleaseFrom(first.slots, i + 1, start, rs, 0, Success)
      ensures arenas[i].memory == old(arenas[i].memory)
      ensures forall j | 0 <= j < BATCH_MAX && j != i :: model.slots[j] == old(model).slots[j]
      ensures rs == done + [rs[i]] && k.asked == old(k.asked) + ReleaseCalls(old(model).slots[i], rs[i])
    {
      hide ReleaseFrom, Repeat, ReleaseCalls;
      ghost var slots, l := model.slots, k.ledger;
      var one, r := arenas[i].Release(k);
      ReleaseKeepsAccounts(slots, i, others, l, r);
      ReleaseFromSnoc(first.slots, i, start, done, 0, Success, r);
      rs := done + [r];
      rc := if one != Success then one else last;
      model := model.(slots := slots[i := CommandArenas.Release(slots[i], l, r).0]);
      ValidAfter(i);
    }
  }
}
