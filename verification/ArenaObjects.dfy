/** The kernel and a command arena as the native code handles them: fields
    updated step by step (native/command_arena_ps5.c). */
module ArenaObjects {
  import opened Words
  import opened CommandArenas
  import opened ArenaOwnership

  /** The five memory calls. Any of them may fail; a failing undo or map may have
      taken effect. Each call that gives something back requires that it is held,
      so a verified caller gives nothing back twice. Every call and its answer is
      noted. */
  class Kernel {
    var ledger: Ledger
    ghost var asked: seq<Call>

    constructor ()
      ensures ledger == Ledger({}, {}, {}) && asked == []
    {
      ledger, asked := Ledger({}, {}, {}), [];
    }

    method ReserveVirtualRange() returns (ok: bool, at: nat)
      modifies this
      ensures ok ==> forall b | b in old(ledger).reserved :: Apart(at, b)
      ensures ledger == if ok then old(ledger).(reserved := old(ledger).reserved + {at}) else old(ledger)
      ensures asked == old(asked) + [ReserveCall(Grant(ok, at))]
    {
      ok := *;
      at := *;
      if exists b | b in ledger.reserved :: !Apart(at, b) {
        ok := false;
      }
      asked := asked + [ReserveCall(Grant(ok, at))];
      if ok {
        ledger := ledger.(reserved := ledger.reserved + {at});
      }
    }

    method AllocateDirectMemory() returns (ok: bool, at: nat)
      modifies this
      ensures ok ==> forall b | b in old(ledger).backing :: Apart(at, b)
      ensures ledger == if ok then old(ledger).(backing := old(ledger).backing + {at}) else old(ledger)
      ensures asked == old(asked) + [AllocateCall(Grant(ok, at))]
    {
      ok := *;
      at := *;
      if exists b | b in ledger.backing :: !Apart(at, b) {
        ok := false;
      }
      asked := asked + [AllocateCall(Grant(ok, at))];
      if ok {
        ledger := ledger.(backing := ledger.backing + {at});
      }
    }

    method BatchMap(v: nat, p: nat) returns (ok: bool, ghost reply: Reply)
      requires v in ledger.reserved && p in ledger.backing
      modifies this
      ensures ok == reply.Done? && asked == old(asked) + [MapCall(v, p, reply)]
      ensures reply == Refused(false) ==> ledger == old(ledger)
      ensures reply != Refused(false) ==> ledger == old(ledger).(mapped := old(ledger).mapped + {(v, p)})
    {
      var effect: bool := *;
      ok := *;
      reply := if ok then Done else Refused(effect);
      asked := asked + [MapCall(v, p, reply)];
      if ok || effect {
        ledger := ledger.(mapped := ledger.mapped + {(v, p)});
      }
    }

    method BatchUnmap(v: nat, p: nat) returns (ok: bool, ghost reply: Reply)
      requires (v, p) in ledger.mapped
      modifies this
      ensures ok == reply.Done? && asked == old(asked) + [UnmapCall(v, p, reply)]
      ensures reply == Refused(false) ==> ledger == old(ledger)
      ensures reply != Refused(false) ==> ledger == old(ledger).(mapped := old(ledger).mapped - {(v, p)})
    {
      var effect: bool := *;
      ok := *;
      reply := if ok then Done else Refused(effect);
      asked := asked + [UnmapCall(v, p, reply)];
      if ok || effect {
        ledger := ledger.(mapped := ledger.mapped - {(v, p)});
      }
    }

    method ReleaseDirectMemory(p: nat) returns (ok: bool, ghost reply: Reply)
      requires p in ledger.backing
      modifies this
      ensures ok == reply.Done? && asked == old(asked) + [FreeCall(p, reply)]
      ensures reply == Refused(false) ==> ledger == old(ledger)
      ensures reply != Refused(false) ==> ledger == old(ledger).(backing := old(ledger).backing - {p})
    {
      var effect: bool := *;
      ok := *;
      reply := if ok then Done else Refused(effect);
      asked := asked + [FreeCall(p, reply)];
      if ok || effect {
        ledger := ledger.(backing := ledger.backing - {p});
      }
    }

    method Munmap(v: nat) returns (ok: bool, ghost reply: Reply)
      requires v in ledger.reserved
      modifies this
      ensures ok == reply.Done? && asked == old(asked) + [MunmapCall(v, reply)]
      ensures reply == Refused(false) ==> ledger == old(ledger)
      ensures reply != Refused(false) ==> ledger == old(ledger).(reserved := old(ledger).reserved - {v})
    {
      var effect: bool := *;
      ok := *;
      reply := if ok then Done else Refused(effect);
      asked := asked + [MunmapCall(v, reply)];
      if ok || effect {
        ledger := ledger.(reserved := ledger.reserved - {v});
      }
    }
  }

  /** The calls of one operation, with one more of them. */
  ghost function Noted(before: seq<Call>, calls: seq<Call>, call: Call): (more: seq<Call>)
    ensures before + more == before + calls + [call]
  {
    calls + [call]
  }

  /** `memory` is what `address` points to while the arena is mapped. */
  class CommandArena {
    var address: nat
    var physical: nat
    var reserved: bool
    var backed: bool
    var mapped: bool
    var uncertain: bool
    var memory: array<Word>

    constructor ()
      ensures View() == EMPTY_SLOT && fresh(memory)
    {
      address, physical := 0, 0;
      reserved, backed, mapped, uncertain := false, false, false, false;
      memory := new Word[0];
    }

    function View(): Slot
      reads this
    {
      Slot(address, physical, reserved, backed, mapped, uncertain)
    }

    method Clear()
      modifies this
      ensures View() == EMPTY_SLOT && memory == old(memory)
    {
      address, physical := 0, 0;
      reserved, backed, mapped, uncertain := false, false, false, false;
    }

    method Release(k: Kernel) returns (rc: VkResult, ghost r: ReleaseReply)
      requires Honest(View(), k.ledger)
      modifies this, k
      ensures (View(), k.ledger, rc) == CommandArenas.Release(old(View()), old(k.ledger), r)
      ensures k.asked == old(k.asked) + ReleaseCalls(old(View()), r)
      ensures memory == old(memory) && (mapped ==> old(mapped))
    {
      hide Owns;
      r := ReleaseReply(Done, Done, Done);
      ghost var start := k.asked;
      ghost var calls: seq<Call> := [];
      assert start + calls == start;
      if uncertain {
        return DeviceLost, r;
      }
      if mapped {
        var ok, reply := k.BatchUnmap(address, physical);
        r := r.(unmap := reply);
        calls := Noted(start, calls, UnmapCall(address, physical, reply));
        if !ok {
          uncertain := true;
          return DeviceLost, r;
        }
        mapped := false;
      }
      if backed {
        var ok, reply := k.ReleaseDirectMemory(physical);
        r := r.(free := reply);
        calls := Noted(start, calls, FreeCall(physical, reply));
        if !ok {
          uncertain := true;
          return DeviceLost, r;
        }
        backed := false;
      }
      if reserved {
        var ok, reply := k.Munmap(address);
        r := r.(munmap := reply);
        calls := Noted(start, calls, MunmapCall(address, reply));
        if !ok {
          uncertain := true;
          return DeviceLost, r;
        }
        reserved := false;
      }
      Clear();
      rc := Success;
    }

    method Rollback(k: Kernel) returns (rc: VkResult, ghost r: ReleaseReply)
      requires Honest(View(), k.ledger)
      modifies this, k
      ensures (View(), k.ledger, rc) == CommandArenas.Rollback(old(View()), old(k.ledger), r)
      ensures k.asked == old(k.asked) + ReleaseCalls(old(View()), r)
      ensures memory == old(memory) && rc != Success && (mapped ==> old(mapped))
    {
      hide CommandArenas.Release;
      rc, r := Release(k);
      rc := if rc == Success then OutOfDeviceMemory else DeviceLost;
    }

    method Create(k: Kernel) returns (rc: VkResult, ghost r: CreateReply)
      modifies this, k
      ensures (View(), k.ledger, rc) == CommandArenas.Create(old(View()), old(k.ledger), r)
      ensures k.asked == old(k.asked) + CreateCalls(old(View()), r)
      ensures Admissible(old(k.ledger), r) && (rc != Success ==> mapped == old(mapped))
      ensures if rc == Success
              then fresh(memory) && memory.Length == MEMORY_WORDS && forall i | 0 <= i < memory.Length :: memory[i] == 0
              else memory == old(memory)
    {
      hide CommandArenas.Rollback, ReleaseCalls;
      r := CreateReply(Grant(false, 0), Grant(false, 0), Done, ReleaseReply(Done, Done, Done));
      if address != 0 || reserved || backed || mapped || uncertain {
        return Unknown, r;
      }
      var ok, at := k.ReserveVirtualRange();
      r := r.(range := Grant(ok, at));
      address := at;
      if !ok {
        return OutOfDeviceMemory, r;
      }
      reserved := true;
      if address == 0 || address % ARENA_ALIGNMENT != 0 || address > ADDRESS_LIMIT - ARENA_BYTES {
        ghost var undo: ReleaseReply;
        rc, undo := Rollback(k);
        r := r.(undo := undo);
        return;
      }
      rc, r := BackAndMap(k, r);
      if rc == Success {
        memory := new Word[MEMORY_WORDS](_ => 0);
      }
    }

    /** Memory for a range that has just been reserved. */
    method BackAndMap(k: Kernel, ghost r: CreateReply) returns (rc: VkResult, ghost r': CreateReply)
      requires reserved && !backed && !mapped && !uncertain && address in k.ledger.reserved
      modifies this, k
      ensures r' == r.(memory := r'.memory, map_ := r'.map_, undo := r'.undo)
      ensures r'.memory.ok ==> forall b | b in old(k.ledger).backing :: Apart(r'.memory.at, b)
      ensures (View(), k.ledger, rc) == BackedAndMapped(old(View()), old(k.ledger), r')
      ensures k.asked == old(k.asked) + BackingCalls(old(View()), r')
      ensures memory == old(memory) && (rc != Success ==> !mapped)
    {
      hide CommandArenas.Rollback, ReleaseCalls;
      r' := r;
      var ok, at := k.AllocateDirectMemory();
      r' := r'.(memory := Grant(ok, at));
      physical := at;
      if !ok {
        ghost var undo: ReleaseReply;
        rc, undo := Rollback(k);
        r' := r'.(undo := undo);
        return;
      }
      backed := true;
      ghost var reply: Reply;
      ok, reply := k.BatchMap(address, physical);
      r' := r'.(map_ := reply);
      if !ok {
        uncertain := true;
        return DeviceLost, r';
      }
      mapped := true;
      rc := Success;
    }
  }
}
