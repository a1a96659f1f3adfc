/** Who owns what: the arena records of a chain against the kernel's ledger. */
module ArenaOwnership {
  import opened Words
  import opened CommandArenas

  /** The flags a record carries never run ahead of each other. */
  predicate Ordered(s: Slot) { (s.mapped ==> s.backed) && (s.backed ==> s.reserved) }

  /** A record whose state is certain tells the truth about the ledger. */
  predicate Honest(s: Slot, l: Ledger) {
    && Ordered(s)
    && (!s.uncertain ==>
          && (s.reserved ==> s.address in l.reserved)
          && (s.backed ==> s.physical in l.backing)
          && (s.mapped ==> (s.address, s.physical) in l.mapped))
  }

  /** Two records that own ranges own different ones. */
  predicate Separate(s: Slot, t: Slot) {
    && (s.reserved && t.reserved ==> Apart(s.address, t.address))
    && (s.backed && t.backed ==> Apart(s.physical, t.physical))
  }

  predicate SeparateFrom(s: Slot, l: Ledger) {
    && (s.reserved ==> forall b | b in l.reserved :: Apart(s.address, b))
    && (s.backed ==> forall b | b in l.backing :: Apart(s.physical, b))
  }

  /** A mapping needs both the range it maps and the memory behind it. */
  ghost predicate Backed(l: Ledger) {
    forall v, p | (v, p) in l.mapped :: v in l.reserved && p in l.backing
  }

  ghost predicate RangeRecorded(slots: seq<Slot>, a: nat) {
    exists i | 0 <= i < |slots| :: slots[i].reserved && slots[i].address == a
  }

  ghost predicate MemoryRecorded(slots: seq<Slot>, p: nat) {
    exists i | 0 <= i < |slots| :: slots[i].backed && slots[i].physical == p
  }

  ghost predicate MappingRecorded(slots: seq<Slot>, v: nat, p: nat) {
    exists i | 0 <= i < |slots| ::
      slots[i].backed && (slots[i].mapped || slots[i].uncertain) && slots[i].address == v && slots[i].physical == p
  }

  /** Everything the kernel holds beyond `others` is recorded by a slot. */
  ghost predicate Recorded(slots: seq<Slot>, others: Ledger, l: Ledger) {
    && others.reserved <= l.reserved && others.backing <= l.backing && others.mapped <= l.mapped
    && (forall a | a in l.reserved :: a in others.reserved || RangeRecorded(slots, a))
    && (forall p | p in l.backing :: p in others.backing || MemoryRecorded(slots, p))
    && (forall v, p | (v, p) in l.mapped :: (v, p) in others.mapped || MappingRecorded(slots, v, p))
  }

  ghost predicate Disjoint(slots: seq<Slot>, others: Ledger) {
    && (forall i, j | 0 <= i < j < |slots| :: Separate(slots[i], slots[j]))
    && (forall i | 0 <= i < |slots| :: SeparateFrom(slots[i], others))
  }

  /** The books balance: `others` is what the rest of the process holds. */
  ghost predicate Accounted(slots: seq<Slot>, others: Ledger, l: Ledger) {
    && Backed(others) && Backed(l)
    && Disjoint(slots, others)
    && Recorded(slots, others, l)
    && (forall i | 0 <= i < |slots| :: Honest(slots[i], l))
  }

  /** What a kernel call may do on behalf of a record: give back ranges that
      record owns and no longer claims. */
  predicate GivesBack(s: Slot, s': Slot, l: Ledger, l': Ledger) {
    && s'.address == s.address && s'.physical == s.physical
    && (s'.reserved ==> s.reserved) && (s'.backed ==> s.backed)
    && (l'.reserved == l.reserved || (s.reserved && l'.reserved == l.reserved - {s.address}))
    && (l'.backing == l.backing || (s.backed && l'.backing == l.backing - {s.physical}))
    && (l'.mapped == l.mapped || (s.mapped && l'.mapped == l.mapped - {(s.address, s.physical)}))
    && (s.reserved && !s'.reserved ==> s.address !in l'.reserved)
    && (s.backed && !s'.backed ==> s.physical !in l'.backing)
    && (s.backed && (s.mapped || s.uncertain) && !(s'.backed && (s'.mapped || s'.uncertain))
        ==> (s.address, s.physical) !in l'.mapped)
  }

  lemma RecordedAfter(slots: seq<Slot>, i: nat, s': Slot, others: Ledger, l: Ledger, l': Ledger)
    requires i < |slots| && Recorded(slots, others, l) && Disjoint(slots, others) && Backed(others)
    requires Ordered(slots[i]) && GivesBack(slots[i], s', l, l')
    ensures Recorded(slots[i := s'], others, l')
  {
    var after := slots[i := s'];
    assert SeparateFrom(slots[i], others);
    forall v, p | (v, p) in l'.mapped && (v, p) !in others.mapped ensures MappingRecorded(after, v, p) {
      var j :| 0 <= j < |slots| && slots[j].backed && (slots[j].mapped || slots[j].uncertain)
        && slots[j].address == v && slots[j].physical == p;
      assert after[j].address == v;
    }
    forall a | a in l'.reserved && a !in others.reserved ensures RangeRecorded(after, a) {
      var j :| 0 <= j < |slots| && slots[j].reserved && slots[j].address == a;
      assert after[j].address == a;
    }
    forall p | p in l'.backing && p !in others.backing ensures MemoryRecorded(after, p) {
      var j :| 0 <= j < |slots| && slots[j].backed && slots[j].physical == p;
      assert after[j].physical == p;
    }
  }

  lemma HonestAfter(slots: seq<Slot>, i: nat, s': Slot, others: Ledger, l: Ledger, l': Ledger)
    requires i < |slots| && Disjoint(slots, others) && Ordered(slots[i]) && GivesBack(slots[i], s', l, l')
    requires forall k | 0 <= k < |slots| :: Honest(slots[k], l)
    ensures forall k | 0 <= k < |slots| && k != i :: Honest(slots[k], l')
  {
    forall k | 0 <= k < |slots| && k != i ensures Honest(slots[k], l') {
      assert Separate(slots[if k < i then k else i], slots[if k < i then i else k]);
    }
  }

  lemma AccountedAfter(slots: seq<Slot>, i: nat, s': Slot, others: Ledger, l: Ledger, l': Ledger)
    requires i < |slots| && Accounted(slots, others, l)
    requires GivesBack(slots[i], s', l, l') && Honest(s', l') && Backed(l')
    ensures Accounted(slots[i := s'], others, l')
  {
    RecordedAfter(slots, i, s', others, l, l');
    HonestAfter(slots, i, s', others, l, l');
    var after := slots[i := s'];
    forall k, j | 0 <= k < j < |after| ensures Separate(after[k], after[j]) {
      assert Separate(slots[k], slots[j]);
    }
    forall k | 0 <= k < |after| ensures SeparateFrom(after[k], others) {
      assert SeparateFrom(slots[k], others);
    }
  }

  /** A mapping through a record's range, or onto its memory, is that record's. */
  lemma OnlyOwnMapping(slots: seq<Slot>, i: nat, others: Ledger, l: Ledger, v: nat, p: nat)
    requires i < |slots| && Accounted(slots, others, l) && (v, p) in l.mapped
    requires (slots[i].reserved && v == slots[i].address) || (slots[i].backed && p == slots[i].physical)
    ensures MappingRecorded([slots[i]], v, p)
  {
    assert SeparateFrom(slots[i], others);
    assert (v, p) !in others.mapped;
    var j :| 0 <= j < |slots| && slots[j].backed && (slots[j].mapped || slots[j].uncertain)
      && slots[j].address == v && slots[j].physical == p;
    assert Honest(slots[j], l);
    assert i == j;
    assert [slots[i]][0] == slots[j];
  }

  lemma UnmapKeepsAccounts(slots: seq<Slot>, i: nat, others: Ledger, l: Ledger, reply: Reply)
    requires i < |slots| && Accounted(slots, others, l)
    ensures var (s, l') := UnmapStep(slots[i], l, reply);
            Accounted(slots[i := s], others, l') && (s.uncertain || !s.mapped)
  {
    var (s', l') := UnmapStep(slots[i], l, reply);
    assert Honest(slots[i], l);
    AccountedAfter(slots, i, s', others, l, l');
  }

  lemma FreeKeepsAccounts(slots: seq<Slot>, i: nat, others: Ledger, l: Ledger, reply: Reply)
    requires i < |slots| && Accounted(slots, others, l)
    requires slots[i].uncertain || !slots[i].mapped
    ensures var (s, l') := FreeStep(slots[i], l, reply);
            Accounted(slots[i := s], others, l') && (s.uncertain || !s.backed)
  {
    var (s', l') := FreeStep(slots[i], l, reply);
    assert Honest(slots[i], l);
    if !slots[i].uncertain && slots[i].backed {
      forall v, p | (v, p) in l'.mapped ensures p in l'.backing {
        if p == slots[i].physical { OnlyOwnMapping(slots, i, others, l, v, p); assert false; }
      }
    }
    AccountedAfter(slots, i, s', others, l, l');
  }

  lemma MunmapKeepsAccounts(slots: seq<Slot>, i: nat, others: Ledger, l: Ledger, reply: Reply)
    requires i < |slots| && Accounted(slots, others, l)
    requires slots[i].uncertain || !slots[i].backed
    ensures var (s, l') := MunmapStep(slots[i], l, reply);
            Accounted(slots[i := s], others, l') && (s.uncertain || !s.reserved)
  {
    var (s', l') := MunmapStep(slots[i], l, reply);
    assert Honest(slots[i], l);
    if !slots[i].uncertain && slots[i].reserved {
      forall v, p | (v, p) in l'.mapped ensures v in l'.reserved {
        if v == slots[i].address { OnlyOwnMapping(slots, i, others, l, v, p); assert false; }
      }
    }
    AccountedAfter(slots, i, s', others, l, l');
  }

  /** Releasing a record, whatever the kernel answers, keeps the books balanced;
      it either erases the record or leaves it uncertain and reported. */
  lemma ReleaseKeepsAccounts(slots: seq<Slot>, i: nat, others: Ledger, l: Ledger, r: ReleaseReply)
    requires i < |slots| && Accounted(slots, others, l)
    ensures var (s, l', rc) := Release(slots[i], l, r);
            && Accounted(slots[i := s], others, l')
            && (rc == Success || rc == DeviceLost)
            && (rc == Success <==> s == EMPTY_SLOT) && (rc == DeviceLost <==> s.uncertain)
            && (slots[i].uncertain ==> s == slots[i] && l' == l)
            && l'.reserved <= l.reserved && l'.backing <= l.backing && l'.mapped <= l.mapped
  {
    if slots[i].uncertain {
      assert slots[i := slots[i]] == slots;
    } else {
      UnmapKeepsAccounts(slots, i, others, l, r.unmap);
      var (s1, l1) := UnmapStep(slots[i], l, r.unmap);
      var slots1 := slots[i := s1];
      FreeKeepsAccounts(slots1, i, others, l1, r.free);
      var (s2, l2) := FreeStep(s1, l1, r.free);
      var slots2 := slots1[i := s2];
      MunmapKeepsAccounts(slots2, i, others, l2, r.munmap);
      var (s3, l3) := MunmapStep(s2, l2, r.munmap);
      assert slots2[i := s3] == slots[i := s3];
      if !s3.uncertain {
        assert Honest(slots[i := s3][i], l3);
        AccountedSame(slots[i := s3], slots[i := EMPTY_SLOT], others, l3);
      }
    }
  }

  /** What the kernel may have handed out to a record that owned nothing. */
  ghost predicate Granted(s': Slot, l: Ledger, l': Ledger) {
    && s'.reserved && Ordered(s') && (s'.mapped ==> !s'.uncertain)
    && (forall b | b in l.reserved :: Apart(s'.address, b))
    && (s'.backed ==> forall b | b in l.backing :: Apart(s'.physical, b))
    && l'.reserved == l.reserved + {s'.address}
    && l'.backing == (l.backing + if s'.backed then {s'.physical} else {})
    && (l'.mapped == l.mapped ||
        (s'.backed && (s'.uncertain || s'.mapped) && l'.mapped == l.mapped + {(s'.address, s'.physical)}))
    && (s'.mapped ==> l'.mapped == l.mapped + {(s'.address, s'.physical)})
  }

  lemma RecordedAfterGrant(slots: seq<Slot>, i: nat, s': Slot, others: Ledger, l: Ledger, l': Ledger)
    requires i < |slots| && Recorded(slots, others, l) && !Owns(slots[i]) && Granted(s', l, l')
    ensures Recorded(slots[i := s'], others, l')
  {
    var after := slots[i := s'];
    assert after[i] == s';
    forall v, p | (v, p) in l'.mapped && (v, p) !in others.mapped ensures MappingRecorded(after, v, p) {
      if (v, p) in l.mapped {
        var j :| 0 <= j < |slots| && slots[j].backed && (slots[j].mapped || slots[j].uncertain)
          && slots[j].address == v && slots[j].physical == p;
        assert after[j].address == v;
      }
    }
    forall a | a in l'.reserved && a !in others.reserved ensures RangeRecorded(after, a) {
      if a in l.reserved {
        var j :| 0 <= j < |slots| && slots[j].reserved && slots[j].address == a;
        assert after[j].address == a;
      }
    }
    forall p | p in l'.backing && p !in others.backing ensures MemoryRecorded(after, p) {
      if p in l.backing {
        var j :| 0 <= j < |slots| && slots[j].backed && slots[j].physical == p;
        assert after[j].physical == p;
      }
    }
  }

  /** Ranges the kernel has just handed out can be entered into a clean record. */
  lemma GrantKeepsAccounts(slots: seq<Slot>, i: nat, s': Slot, others: Ledger, l: Ledger, l': Ledger)
    requires i < |slots| && Accounted(slots, others, l) && !Owns(slots[i]) && Granted(s', l, l')
    requires forall k | 0 <= k < |slots| && k != i :: !slots[k].uncertain
    ensures Accounted(slots[i := s'], others, l')
  {
    RecordedAfterGrant(slots, i, s', others, l, l');
    var after := slots[i := s'];
    forall k | 0 <= k < |after| ensures SeparateFrom(after[k], others) && Honest(after[k], l') {
      assert SeparateFrom(slots[k], others) && Honest(slots[k], l);
    }
    forall k, j | 0 <= k < j < |after| ensures Separate(after[k], after[j]) {
      assert Separate(slots[k], slots[j]) && Honest(slots[k], l) && Honest(slots[j], l);
    }
  }

  /** Creation into a clean record keeps the books balanced whichever call
      fails: it ends with a live arena, a record owning nothing, or an uncertain
      record that keeps what the kernel may still hold. */
  lemma CreateKeepsAccounts(slots: seq<Slot>, i: nat, others: Ledger, l: Ledger, r: CreateReply)
    requires i < |slots| && slots[i] == EMPTY_SLOT && Accounted(slots, others, l) && Admissible(l, r)
    requires forall k | 0 <= k < |slots| :: !slots[k].uncertain
    ensures var (s, l', rc) := Create(EMPTY_SLOT, l, r);
            && Accounted(slots[i := s], others, l')
            && (rc == Success <==> Live(s)) && (rc == DeviceLost <==> s.uncertain)
            && (rc == OutOfDeviceMemory <==> !Owns(s))
            && (rc == OutOfDeviceMemory ==> l' == l)
            && l.reserved <= l'.reserved && l.backing <= l'.backing && l.mapped <= l'.mapped
  {
    if !r.range.ok {
      DirtyAddress(slots, i, r.range.at, others, l);
    } else {
      var s1 := EMPTY_SLOT.(address := r.range.at, reserved := true);
      var l1 := l.(reserved := l.reserved + {r.range.at});
      var s1' := if Usable(r.range.at) then s1.(physical := r.memory.at) else s1;
      GrantKeepsAccounts(slots, i, s1', others, l, l1);
      if !Usable(r.range.at) || !r.memory.ok {
        assert s1'.address !in l.reserved;
        ReleaseKeepsAccounts(slots[i := s1'], i, others, l1, r.undo);
        assert slots[i := s1'][i := Release(s1', l1, r.undo).0] == slots[i := Release(s1', l1, r.undo).0];
      } else {
        var (s, l', rc) := Create(EMPTY_SLOT, l, r);
        GrantKeepsAccounts(slots, i, s, others, l, l');
      }
    }
  }

  /** A stray address in a record that owns nothing changes no account. */
  lemma DirtyAddress(slots: seq<Slot>, i: nat, at: nat, others: Ledger, l: Ledger)
    requires i < |slots| && slots[i] == EMPTY_SLOT && Accounted(slots, others, l)
    ensures Accounted(slots[i := EMPTY_SLOT.(address := at)], others, l)
  {
    AccountedSame(slots, slots[i := EMPTY_SLOT.(address := at)], others, l);
  }

  predicate SameClaims(s: Slot, t: Slot) {
    s == t || (!Owns(s) && !Owns(t))
  }

  lemma AccountedSame(slots: seq<Slot>, after: seq<Slot>, others: Ledger, l: Ledger)
    requires Accounted(slots, others, l) && |slots| == |after|
    requires forall k | 0 <= k < |slots| :: SameClaims(slots[k], after[k])
    ensures Accounted(after, others, l)
  {
    forall v, p | (v, p) in l.mapped && (v, p) !in others.mapped ensures MappingRecorded(after, v, p) {
      var j :| 0 <= j < |slots| && slots[j].backed && (slots[j].mapped || slots[j].uncertain)
        && slots[j].address == v && slots[j].physical == p;
      assert SameClaims(slots[j], after[j]) && after[j].address == v;
    }
    forall a | a in l.reserved && a !in others.reserved ensures RangeRecorded(after, a) {
      var j :| 0 <= j < |slots| && slots[j].reserved && slots[j].address == a;
      assert SameClaims(slots[j], after[j]) && after[j].address == a;
    }
    forall p | p in l.backing && p !in others.backing ensures MemoryRecorded(after, p) {
      var j :| 0 <= j < |slots| && slots[j].backed && slots[j].physical == p;
      assert SameClaims(slots[j], after[j]) && after[j].physical == p;
    }
    forall k, j | 0 <= k < j < |after| ensures Separate(after[k], after[j]) {
      assert Separate(slots[k], slots[j]) && SameClaims(slots[k], after[k]) && SameClaims(slots[j], after[j]);
    }
    forall k | 0 <= k < |after| ensures SeparateFrom(after[k], others) && Honest(after[k], l) {
      assert SeparateFrom(slots[k], others) && Honest(slots[k], l) && SameClaims(slots[k], after[k]);
    }
  }
}
