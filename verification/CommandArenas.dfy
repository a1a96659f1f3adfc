/** One 128 KiB command arena and the kernel ranges behind it
    (native/command_arena_ps5.c). The functions say what a call does given the
    kernel's answers; the class does it field by field. */
module CommandArenas {
  import opened Words

  const ARENA_BYTES: nat := 131072
  const ARENA_ALIGNMENT: nat := 65536
  /** The last 64 bytes belong to the label, not to commands. */
  const ARENA_WORDS: nat := (ARENA_BYTES - 64) / 4
  const MEMORY_WORDS: nat := ARENA_BYTES / 4

  // ----- the kernel's side

  /** What the kernel holds: reserved virtual ranges, the physical ranges backing
      them, and mappings, each range named by its first byte. */
  datatype Ledger = Ledger(reserved: set<nat>, backing: set<nat>, mapped: set<(nat, nat)>)

  /** A kernel call that hands out a range; `at` is what it left behind. */
  datatype Grant = Grant(ok: bool, at: nat)

  /** A kernel call that undoes or maps something. A failing call may have taken
      effect all the same. */
  datatype Reply = Done | Refused(tookEffect: bool)

  datatype ReleaseReply = ReleaseReply(unmap: Reply, free: Reply, munmap: Reply)
  datatype CreateReply = CreateReply(range: Grant, memory: Grant, map_: Reply, undo: ReleaseReply)

  predicate Apart(a: nat, b: nat) { a + ARENA_BYTES <= b || b + ARENA_BYTES <= a }

  /** The kernel never hands out a range overlapping one it has handed out. */
  predicate Admissible(l: Ledger, r: CreateReply) {
    && (r.range.ok ==> forall b | b in l.reserved :: Apart(r.range.at, b))
    && (r.memory.ok ==> forall b | b in l.backing :: Apart(r.memory.at, b))
  }

  // ----- the arena record

  datatype Slot = Slot(address: nat, physical: nat, reserved: bool, backed: bool, mapped: bool, uncertain: bool)

  const EMPTY_SLOT := Slot(0, 0, false, false, false, false)

  predicate Owns(s: Slot) { s.uncertain || s.reserved || s.backed || s.mapped }

  predicate Usable(address: nat) {
    && address != 0
    && address % ARENA_ALIGNMENT == 0
    && address <= ADDRESS_LIMIT - ARENA_BYTES
  }

  /** A record whose creation succeeded and that nothing has released since. */
  predicate Live(s: Slot) {
    s.reserved && s.backed && s.mapped && !s.uncertain && Usable(s.address)
  }

  function Label(s: Slot): nat
  {
    s.address + ARENA_BYTES - 64
  }

  // ----- release and create, as functions of the kernel's answers

  function UnmapStep(s: Slot, l: Ledger, reply: Reply): (Slot, Ledger) {
    if s.uncertain || !s.mapped then (s, l)
    else
      var gone := l.(mapped := l.mapped - {(s.address, s.physical)});
      match reply
      case Done => (s.(mapped := false), gone)
      case Refused(effect) => (s.(uncertain := true), if effect then gone else l)
  }

  function FreeStep(s: Slot, l: Ledger, reply: Reply): (Slot, Ledger) {
    if s.uncertain || !s.backed then (s, l)
    else
      var gone := l.(backing := l.backing - {s.physical});
      match reply
      case Done => (s.(backed := false), gone)
      case Refused(effect) => (s.(uncertain := true), if effect then gone else l)
  }

  function MunmapStep(s: Slot, l: Ledger, reply: Reply): (Slot, Ledger) {
    if s.uncertain || !s.reserved then (s, l)
    else
      var gone := l.(reserved := l.reserved - {s.address});
      match reply
      case Done => (s.(reserved := false), gone)
      case Refused(effect) => (s.(uncertain := true), if effect then gone else l)
  }

  function Release(s: Slot, l: Ledger, r: ReleaseReply): (Slot, Ledger, VkResult) {
    if s.uncertain then (s, l, DeviceLost)
    else
      var (s1, l1) := UnmapStep(s, l, r.unmap);
      var (s2, l2) := FreeStep(s1, l1, r.free);
      var (s3, l3) := MunmapStep(s2, l2, r.munmap);
      if s3.uncertain then (s3, l3, DeviceLost) else (EMPTY_SLOT, l3, Success)
  }

  function Rollback(s: Slot, l: Ledger, r: ReleaseReply): (Slot, Ledger, VkResult) {
    var (s', l', rc) := Release(s, l, r);
    (s', l', if rc == Success then OutOfDeviceMemory else DeviceLost)
  }

  function Create(s: Slot, l: Ledger, r: CreateReply): (Slot, Ledger, VkResult) {
    if s.address != 0 || Owns(s) then (s, l, Unknown)
    else if !r.range.ok then (s.(address := r.range.at), l, OutOfDeviceMemory)
    else
      var s1 := s.(address := r.range.at, reserved := true);
      var l1 := l.(reserved := l.reserved + {r.range.at});
      if !Usable(r.range.at) then Rollback(s1, l1, r.undo) else BackedAndMapped(s1, l1, r)
  }

  /** Memory for a range that has just been reserved. */
  function BackedAndMapped(s: Slot, l: Ledger, r: CreateReply): (Slot, Ledger, VkResult) {
    var s1 := s.(physical := r.memory.at);
    if !r.memory.ok then Rollback(s1, l, r.undo)
    else
      var s2 := s1.(backed := true);
      var l2 := l.(backing := l.backing + {r.memory.at});
      var l3 := l2.(mapped := l2.mapped + {(s.address, r.memory.at)});
      match r.map_
      case Done => (s2.(mapped := true), l3, Success)
      case Refused(effect) => (s2.(uncertain := true), if effect then l3 else l2, DeviceLost)
  }

  // ----- what the kernel is asked

  /** A kernel call and what it answered. */
  datatype Call =
    | ReserveCall(grant: Grant)
    | AllocateCall(grant: Grant)
    | MapCall(virtual: nat, physical: nat, reply: Reply)
    | UnmapCall(virtual: nat, physical: nat, reply: Reply)
    | FreeCall(physical: nat, reply: Reply)
    | MunmapCall(virtual: nat, reply: Reply)

  predicate Agreed(call: Call) {
    if call.ReserveCall? || call.AllocateCall? then call.grant.ok else call.reply.Done?
  }

  predicate AllAgreed(calls: seq<Call>) { forall i | 0 <= i < |calls| :: Agreed(calls[i]) }

  /** The calls of a release: what is held is given back, the mapping first, up to
      the first refusal. */
  function ReleaseCalls(s: Slot, r: ReleaseReply): seq<Call> {
    if s.uncertain then []
    else
      var unmap := if s.mapped then [UnmapCall(s.address, s.physical, r.unmap)] else [];
      var free := if s.backed then [FreeCall(s.physical, r.free)] else [];
      var munmap := if s.reserved then [MunmapCall(s.address, r.munmap)] else [];
      if s.mapped && !r.unmap.Done? then unmap
      else if s.backed && !r.free.Done? then unmap + free
      else unmap + free + munmap
  }

  function CreateCalls(s: Slot, r: CreateReply): seq<Call> {
    if s.address != 0 || Owns(s) then []
    else if !r.range.ok then [ReserveCall(r.range)]
    else
      var s1 := s.(address := r.range.at, reserved := true);
      [ReserveCall(r.range)] + if !Usable(r.range.at) then ReleaseCalls(s1, r.undo) else BackingCalls(s1, r)
  }

  function BackingCalls(s: Slot, r: CreateReply): seq<Call> {
    [AllocateCall(r.memory)]
    + if !r.memory.ok then ReleaseCalls(s.(physical := r.memory.at), r.undo)
      else [MapCall(s.address, r.memory.at, r.map_)]
  }

  /** The calls that give back all a record holds. */
  function GiveBack(s: Slot): seq<Call> {
    (if s.mapped then [UnmapCall(s.address, s.physical, Done)] else [])
    + (if s.backed then [FreeCall(s.physical, Done)] else [])
    + (if s.reserved then [MunmapCall(s.address, Done)] else [])
  }

  /** A release fails only where the kernel says so: it succeeds exactly when the
      record is certain and every call it makes is agreed to, and then those calls
      have given back all the record held. It makes no call after a refused one. */
  lemma CallsDecideRelease(s: Slot, l: Ledger, r: ReleaseReply)
    ensures var (s', l', rc) := Release(s, l, r);
      var calls := ReleaseCalls(s, r);
      && (rc == Success <==> !s.uncertain && AllAgreed(calls))
      && (rc == Success ==> s' == EMPTY_SLOT && calls == GiveBack(s))
      && (forall i | 0 <= i < |calls| - 1 :: Agreed(calls[i]))
      && (s.uncertain ==> calls == [] && s' == s && l' == l)
  {
    var calls := ReleaseCalls(s, r);
    if !s.uncertain {
      assert s.mapped ==> calls[0] == UnmapCall(s.address, s.physical, r.unmap);
      assert s.backed && (s.mapped ==> r.unmap.Done?) ==>
        calls[if s.mapped then 1 else 0] == FreeCall(s.physical, r.free);
      assert s.reserved && (s.mapped ==> r.unmap.Done?) && (s.backed ==> r.free.Done?) ==>
        calls[|calls| - 1] == MunmapCall(s.address, r.munmap);
    }
  }

  /** A creation that went through: a usable range, memory for it, and the mapping. */
  predicate Created(calls: seq<Call>) {
    && |calls| == 3 && AllAgreed(calls) && calls[0].ReserveCall? && Usable(calls[0].grant.at)
    && calls[1].AllocateCall? && calls[2] == MapCall(calls[0].grant.at, calls[1].grant.at, Done)
  }

  /** A creation succeeds exactly when the kernel reserves a usable range, allocates
      memory for it and maps it, asked in this order. A record in use asks for
      nothing. */
  lemma CallsDecideCreate(s: Slot, l: Ledger, r: CreateReply)
    ensures var rc := Create(s, l, r).2;
      var calls := CreateCalls(s, r);
      && (rc == Success <==> Created(calls))
      && (rc == Unknown <==> calls == []) && (calls == [] <==> s.address != 0 || Owns(s))
  {
  }

  /** A creation that is refused after its range was reserved gives the range back,
      and whatever it was allocated; it reports a lost device only if that fails. */
  lemma CallsUndoCreate(s: Slot, l: Ledger, r: CreateReply)
    requires s == EMPTY_SLOT && r.range.ok && !(Usable(r.range.at) && r.memory.ok)
    ensures var (s', l', rc) := Create(s, l, r);
      var calls := CreateCalls(s, r);
      && calls[|calls| - 1] == MunmapCall(r.range.at, r.undo.munmap)
      && (rc == OutOfDeviceMemory <==> r.undo.munmap == Done) && (rc == DeviceLost <==> r.undo.munmap != Done)
      && (rc == OutOfDeviceMemory ==> s' == EMPTY_SLOT)
  {
  }
}
