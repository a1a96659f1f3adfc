/** The register words that move a prepared draw to another view's layer
    (native/draw_emit_ps5.c, native/targets_ps5.h). */
module ViewTargets {
  import opened Words
  import opened ContextRegisters

  // ----- target shapes

  const COLOR_OFFSETS: seq<Word> := [
    0x318, 0x31b, 0x31c, 0x31d, 0x31e, 0x31f, 0x321, 0x323, 0x324, 0x325, 0x390, 0x398, 0x3a0, 0x3a8, 0x3b0, 0x3b8]

  const DEPTH_OFFSETS: seq<Word> := [
    0x000, 0x01f, 0x002, 0x004, 0x005, 0x007, 0x011, 0x012, 0x013, 0x014, 0x015,
    0x2af, 0x2de, 0x092, 0x01a, 0x01c, 0x01b, 0x01d, 0x01e, 0x003, 0x010, 0x200]

  const MAX_VIEWS: nat := 32
  /** Room for a colour and a depth target. */
  const CAPACITY: nat := 38

  /** The shape a register count names. */
  function Shape(count: nat): Option<seq<Word>> {
    if count == 16 then Some(COLOR_OFFSETS) else if count == 22 then Some(DEPTH_OFFSETS) else None
  }

  /** The words that may carry a layer's address. */
  predicate Carrier(offset: Word) {
    offset == 0x318 || offset == 0x390 || offset == 0x012 || offset == 0x014 || offset == 0x01a || offset == 0x01c
  }

  predicate PipelineOwned(offset: Word) {
    || offset == 0x094 || offset == 0x095 || offset == 0x200 || offset == 0x204 || offset == 0x205
    || offset == 0x206 || offset == 0x292 || offset == 0x2f9
  }

  // ----- the words that move

  predicate MayMove(offset: Word, prepared: Register, view: Register) {
    && prepared.offset == offset && view.offset == offset
    && (prepared.value == view.value || (Carrier(offset) && !PipelineOwned(offset)))
  }

  /** The targets two views of one image can have. */
  predicate Accepted(prepared: seq<Register>, view: seq<Register>) {
    && |prepared| == |view| && Shape(|view|).Some? && |Shape(|view|).value| == |view|
    && forall i | 0 <= i < |view| :: MayMove(Shape(|view|).value[i], prepared[i], view[i])
  }

  /** What one register of a view adds to the moved ones. */
  function MovedOne(prepared: Register, view: Register): seq<Register> {
    if prepared.value == view.value then [] else [view]
  }

  /** The view's registers that differ from the prepared ones. */
  function Moved(prepared: seq<Register>, view: seq<Register>): (moved: seq<Register>)
    requires |prepared| == |view|
    ensures |moved| <= |view|
  {
    if view == [] then []
    else MovedOne(prepared[0], view[0]) + Moved(prepared[1..], view[1..])
  }

  lemma MovedNext(prepared: seq<Register>, view: seq<Register>, i: nat)
    requires |prepared| == |view| && i < |view|
    ensures Moved(prepared[i..], view[i..]) ==
      MovedOne(prepared[i], view[i]) + Moved(prepared[i + 1..], view[i + 1..])
  {
    assert prepared[i..][1..] == prepared[i + 1..] && view[i..][1..] == view[i + 1..];
  }

  /** `changed` with `rs` written from index `at` on. */
  predicate Appended(before: seq<Register>, after: seq<Register>, at: nat, rs: seq<Register>) {
    |before| == |after| && at + |rs| <= |before| && after == before[..at] + rs + before[at + |rs|..]
  }

  lemma AppendedNone(before: seq<Register>, at: nat)
    requires at <= |before|
    ensures Appended(before, before, at, [])
  {
  }

  lemma AppendedKeeps(before: seq<Register>, after: seq<Register>, at: nat, rs: seq<Register>)
    requires Appended(before, after, at, rs)
    ensures |after| == |before| && after[..at] == before[..at]
  {
  }

  lemma AppendedNext(before: seq<Register>, middle: seq<Register>, after: seq<Register>, at: nat, rs: seq<Register>,
      more: seq<Register>)
    requires Appended(before, middle, at, rs) && at + |rs| + |more| <= |before| && |more| <= 1
    requires after == if more == [] then middle else middle[at + |rs| := more[0]]
    ensures Appended(before, after, at, rs + more)
  {
    if more == [] { assert rs + more == rs; }
  }

  /** One position of the two lists: refused, or unmoved, or appended. */
  method MoveOne(changed: array<Register>, next: nat, offset: Word, prepared: Register, view: Register)
    returns (ok: bool, next': nat)
    requires next < changed.Length
    modifies changed
    ensures ok == MayMove(offset, prepared, view)
    ensures next' == if ok then next + |MovedOne(prepared, view)| else next
    ensures changed[..] == if ok && next' > next then old(changed[..])[next := view] else old(changed[..])
  {
    if prepared.offset != offset || view.offset != offset {
      return false, next;
    }
    if prepared.value == view.value {
      return true, next;
    }
    if !Carrier(offset) {
      return false, next;
    }
    if PipelineOwned(offset) {
      return false, next;
    }
    changed[next] := view;
    return true, next + 1;
  }

  /** Appends what the view moves of one target. A refusal may leave words behind
      the caller's count, and never before it. */
  method CollectViewLayer(changed: array<Register>, count: nat, capacity: nat, prepared: seq<Register>,
      view: seq<Register>)
    returns (rc: VkResult, count': nat)
    requires capacity <= changed.Length
    modifies changed
    ensures var taken := count <= capacity && Accepted(prepared, view) && |view| <= capacity - count;
      rc == if taken then Success else Unknown
    ensures rc == Success ==>
      && count' == count + |Moved(prepared, view)| <= capacity
      && Appended(old(changed[..]), changed[..], count, Moved(prepared, view))
    ensures count <= changed.Length ==> changed[..count] == old(changed[..count])
  {
    hide MayMove, Moved, Shape;
    count' := count;
    ShapeLength(|view|);
    if |view| == 0 || |prepared| != |view| || count > capacity {
      return Unknown, count';
    }
    var offsets := Shape(|view|);
    if offsets == None || |view| > capacity - count {
      return Unknown, count';
    }
    rc, count' := CollectAll(changed, count, offsets.value, prepared, view);
  }

  lemma ShapeLength(count: nat)
    ensures Shape(count).Some? ==> |Shape(count).value| == count > 0
  {
  }

  /** The first i positions have been dealt with: their moved registers stand from
      changed[count] up to `next`. */
  ghost predicate Taken(before: seq<Register>, after: seq<Register>, count: nat, next: nat,
      prepared: seq<Register>, view: seq<Register>, i: nat, moved: seq<Register>)
    requires |prepared| == |view| && i <= |view|
  {
    && moved + Moved(prepared[i..], view[i..]) == Moved(prepared, view)
    && next == count + |moved| <= count + i
    && Appended(before, after, count, moved)
  }

  method TakeOne(changed: array<Register>, count: nat, next: nat, offset: Word, prepared: seq<Register>,
      view: seq<Register>, i: nat, ghost before: seq<Register>, ghost moved: seq<Register>)
    returns (ok: bool, next': nat, ghost moved': seq<Register>)
    requires i < |prepared| == |view| <= changed.Length - count && |before| == changed.Length
    requires Taken(before, changed[..], count, next, prepared, view, i, moved)
    modifies changed
    ensures ok == MayMove(offset, prepared[i], view[i])
    ensures ok ==> Taken(before, changed[..], count, next', prepared, view, i + 1, moved')
    ensures !ok ==> changed[..count] == before[..count]
  {
    hide MayMove, MovedOne, Moved, Appended;
    MovedNext(prepared, view, i);
    AppendedKeeps(before, changed[..], count, moved);
    ghost var middle := changed[..];
    ok, next' := MoveOne(changed, next, offset, prepared[i], view[i]);
    moved' := moved + MovedOne(prepared[i], view[i]);
    MovedOneLength(prepared[i], view[i]);
    if ok {
      AppendedNext(before, middle, changed[..], count, moved, MovedOne(prepared[i], view[i]));
    }
  }

  method CollectAll(changed: array<Register>, count: nat, offsets: seq<Word>, prepared: seq<Register>,
      view: seq<Register>)
    returns (rc: VkResult, count': nat)
    requires |offsets| == |prepared| == |view| <= changed.Length - count
    modifies changed
    ensures rc == if forall k | 0 <= k < |view| :: MayMove(offsets[k], prepared[k], view[k]) then Success else Unknown
    ensures rc == Success ==>
      count' == count + |Moved(prepared, view)| && Appended(old(changed[..]), changed[..], count, Moved(prepared, view))
    ensures changed[..count] == old(changed[..count])
  {
    hide MayMove, Moved, Appended;
    count' := count;
    ghost var before, moved := changed[..], [];
    AppendedNone(before, count);
    var i := 0;
    while i < |view|
      invariant i <= |view|
      invariant forall k | 0 <= k < i :: MayMove(offsets[k], prepared[k], view[k])
      invariant Taken(before, changed[..], count, count', prepared, view, i, moved)
    {
      var ok;
      ok, count', moved := TakeOne(changed, count, count', offsets[i], prepared, view, i, before, moved);
      if !ok {
        return Unknown, count';
      }
      i := i + 1;
    }
    MovedNone(prepared[i..], view[i..]);
    assert moved + [] == moved;
    AppendedKeeps(before, changed[..], count, moved);
    rc := Success;
  }

  lemma MovedNone(prepared: seq<Register>, view: seq<Register>)
    requires |prepared| == |view| == 0
    ensures Moved(prepared, view) == []
  {
  }

  lemma MovedOneLength(prepared: Register, view: Register)
    ensures |MovedOne(prepared, view)| <= 1 && (MovedOne(prepared, view) != [] ==> MovedOne(prepared, view) == [view])
  {
  }

  // ----- both targets of a view

  /** A view of a draw: its index, and the targets it was prepared with and is
      to be re-emitted for. */
  datatype View = View(index: nat, preparedColor: Option<seq<Register>>, viewColor: Option<seq<Register>>,
    preparedDepth: Option<seq<Register>>, viewDepth: Option<seq<Register>>)

  function List(target: Option<seq<Register>>): seq<Register> { if target.Some? then target.value else [] }

  /** Everything but the room. */
  predicate ViewAccepted(v: View) {
    && v.index < MAX_VIEWS && v.preparedColor.Some? && v.viewColor.Some? && v.preparedDepth.Some? == v.viewDepth.Some?
    && Accepted(v.preparedColor.value, v.viewColor.value)
    && (v.preparedDepth.Some? ==> Accepted(v.preparedDepth.value, v.viewDepth.value))
  }

  /** The room each target asks for: that of all its registers, moved or not. */
  predicate ViewFits(v: View, capacity: nat)
    requires ViewAccepted(v)
  {
    && |v.viewColor.value| <= capacity
    && (v.viewDepth.Some? ==> |v.viewDepth.value| <= capacity - |Moved(v.preparedColor.value, v.viewColor.value)|)
  }

  /** The registers the view moves. */
  function ViewDelta(v: View): (delta: seq<Register>)
    requires ViewAccepted(v)
    ensures |delta| <= 44
  {
    Moved(v.preparedColor.value, v.viewColor.value) + Moved(List(v.preparedDepth), List(v.viewDepth))
  }

  lemma AppendedBoth(before: seq<Register>, middle: seq<Register>, after: seq<Register>, at: nat, a: seq<Register>,
      b: seq<Register>)
    requires Appended(before, middle, at, a) && Appended(middle, after, at + |a|, b)
    ensures Appended(before, after, at, a + b) && after[at..at + |a + b|] == a + b
  {
  }

  lemma AppendedIs(before: seq<Register>, after: seq<Register>, rs: seq<Register>)
    requires Appended(before, after, 0, rs)
    ensures |rs| <= |after| && after[..|rs|] == rs
  {
  }

  /** The second target's words behind the first one's. */
  method CollectSecond(changed: array<Register>, capacity: nat, count: nat, prepared: seq<Register>,
      view: seq<Register>, ghost before: seq<Register>, ghost first: seq<Register>)
    returns (rc: VkResult, count': nat)
    requires count == |first| <= capacity <= changed.Length && Appended(before, changed[..], 0, first)
    modifies changed
    ensures rc == if Accepted(prepared, view) && |view| <= capacity - count then Success else Unknown
    ensures rc == Success ==>
      && count' == |first + Moved(prepared, view)|
      && Appended(before, changed[..], 0, first + Moved(prepared, view))
  {
    hide Accepted, Moved, Appended;
    AcceptedLength(prepared, view);
    ghost var middle := changed[..];
    rc, count' := CollectViewLayer(changed, count, capacity, prepared, view);
    if rc == Success {
      AppendedBoth(before, middle, changed[..], 0, first, Moved(prepared, view));
    }
  }

  /** All that a view moves, and the words its packets will take; a refusal counts
      no words. */
  method CollectViewTargets(changed: array<Register>, capacity: nat, v: View)
    returns (rc: VkResult, count: nat, words: Word)
    requires capacity <= changed.Length
    modifies changed
    ensures rc == if ViewAccepted(v) && ViewFits(v, capacity) then Success else Unknown
    ensures rc == Success ==> count == |ViewDelta(v)| <= changed.Length && changed[..count] == ViewDelta(v)
    ensures words == if rc == Success then WordCount(ViewDelta(v)) else 0
  {
    hide Accepted, Moved, Appended, WordCount;
    count, words := 0, 0;
    if v.index >= MAX_VIEWS || v.preparedColor.None? || v.viewColor.None?
       || v.preparedDepth.Some? != v.viewDepth.Some? {
      return Unknown, count, words;
    }
    AcceptedLength(v.preparedColor.value, v.viewColor.value);
    rc, count := CollectViewLayer(changed, 0, capacity, v.preparedColor.value, v.viewColor.value);
    if rc != Success {
      return rc, count, words;
    }
    ghost var color := Moved(v.preparedColor.value, v.viewColor.value);
    if v.preparedDepth.Some? {
      rc, count := CollectSecond(changed, capacity, count, v.preparedDepth.value, v.viewDepth.value,
        old(changed[..]), color);
      if rc != Success {
        return rc, count, words;
      }
    } else {
      MovedNone([], []);
      assert color + [] == color;
    }
    AppendedIs(old(changed[..]), changed[..], ViewDelta(v));
    DeltaWords(ViewDelta(v));
    words := ContextRunWords(changed[..count]);
  }

  lemma DeltaWords(delta: seq<Register>)
    requires |delta| <= 44
    ensures WordCount(delta) % U32 == WordCount(delta) < U32
  {
    PacketsLength(delta);
    RunsAtMost(delta);
  }

  lemma AcceptedLength(prepared: seq<Register>, view: seq<Register>)
    ensures Accepted(prepared, view) ==> |prepared| == |view| <= 22
  {
  }

  lemma {:induction false} RunsAtMost(rs: seq<Register>)
    ensures |Runs(rs)| <= |rs|
    decreases |rs|
  {
    hide Plus;
    if rs != [] { RunsAtMost(rs[Longest(rs, 1)..]); }
  }

  /** Leading positions that carry no address move nothing. */
  lemma {:induction false} LeadingUnmoved(offsets: seq<Word>, prepared: seq<Register>, view: seq<Register>, k: nat)
    requires |offsets| == |prepared| == |view| && k <= |view|
    requires forall i | 0 <= i < |view| :: MayMove(offsets[i], prepared[i], view[i])
    requires forall i | 0 <= i < k :: !Carrier(offsets[i])
    ensures |Moved(prepared, view)| <= |view| - k
    decreases k
  {
    hide Carrier, PipelineOwned;
    if k > 0 {
      assert MayMove(offsets[0], prepared[0], view[0]);
      LeadingUnmoved(offsets[1..], prepared[1..], view[1..], k - 1);
    }
  }

  lemma SevenUnmoved()
    ensures |DEPTH_OFFSETS| == 22 && forall i | 0 <= i < 7 :: !Carrier(DEPTH_OFFSETS[i])
  {
  }

  /** The emission's scratch holds what any accepted view asks for. */
  lemma AcceptedViewFits(v: View)
    requires ViewAccepted(v)
    ensures ViewFits(v, CAPACITY)
  {
    hide MayMove, Moved;
    var prepared, view := v.preparedColor.value, v.viewColor.value;
    if |view| == 22 {
      SevenUnmoved();
      LeadingUnmoved(DEPTH_OFFSETS, prepared, view, 7);
    }
  }
}
