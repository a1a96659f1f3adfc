/** The scissor replay of native/draw_emit_ps5.c: the three scissor registers of a
    draw state, as its last writes left them, in two packets. */
module ScissorReplay {
  import opened Words
  import opened ContextRegisters
  import opened ViewMeaning

  const TL: Word := 0x094
  const BR: Word := 0x095
  const MODE: Word := 0x292

  /** The state writes all three registers. */
  predicate WritesScissor(cx: seq<Register>) { Last(cx, TL).Some? && Last(cx, BR).Some? && Last(cx, MODE).Some? }

  function Scissor(cx: seq<Register>): seq<Register>
    requires WritesScissor(cx)
  {
    [Register(TL, Last(cx, TL).value), Register(BR, Last(cx, BR).value), Register(MODE, Last(cx, MODE).value)]
  }

  function ReplayWords(tl: Word, br: Word, mode: Word): seq<Word> { [0xc002_6900, TL, tl, br, 0xc001_6900, MODE, mode] }

  /** A found value, or none yet. */
  function Found(found: bool, value: Word): Option<Word> { if found then Some(value) else None }

  /** `room` is how many registers a draw state holds. */
  method EmitScissorReplay(out: array<Word>, cursor: nat, capacity: nat, cx: seq<Register>, room: nat)
    returns (rc: VkResult, next: nat)
    requires cursor + capacity <= out.Length
    modifies out
    ensures rc == if |cx| > room || !WritesScissor(cx) then Unknown
                  else if capacity < 7 then OutOfHostMemory else Success
    ensures rc != Success ==> next == cursor && out[..] == old(out[..])
    ensures rc == Success ==> WritesScissor(cx) && next == cursor + 7 == cursor + |Packets(Scissor(cx))|
    ensures rc == Success ==> out[..] == Overwrite(old(out[..]), cursor, Packets(Scissor(cx)))
  {
    hide Packets, Overwrite;
    next := cursor;
    if |cx| > room {
      return Unknown, next;
    }
    var tl, br, mode: Word := 0, 0, 0;
    var foundTl, foundBr, foundMode := false, false, false;
    var i := 0;
    while i < |cx|
      invariant i <= |cx| && out[..] == old(out[..])
      invariant Found(foundTl, tl) == Last(cx[..i], TL)
      invariant Found(foundBr, br) == Last(cx[..i], BR)
      invariant Found(foundMode, mode) == Last(cx[..i], MODE)
    {
      NextLast(cx, i, TL);
      NextLast(cx, i, BR);
      NextLast(cx, i, MODE);
      if cx[i].offset == TL {
        tl, foundTl := cx[i].value, true;
      } else if cx[i].offset == BR {
        br, foundBr := cx[i].value, true;
      } else if cx[i].offset == MODE {
        mode, foundMode := cx[i].value, true;
      }
      i := i + 1;
    }
    assert cx[..i] == cx;
    if !(foundTl && foundBr && foundMode) {
      return Unknown, next;
    }
    if capacity < 7 {
      return OutOfHostMemory, next;
    }
    ReplayIsPackets(tl, br, mode);
    CopyInto(out, cursor, ReplayWords(tl, br, mode));
    return Success, cursor + 7;
  }

  lemma NextLast(cx: seq<Register>, i: nat, offset: Word)
    requires i < |cx|
    ensures Last(cx[..i + 1], offset) == if cx[i].offset == offset then Some(cx[i].value) else Last(cx[..i], offset)
  {
    assert cx[..i + 1] == cx[..i] + [cx[i]];
    LastAppend(cx[..i], [cx[i]], offset);
  }

  /** The seven fixed words are what the run encoder makes of the three registers. */
  lemma ReplayIsPackets(tl: Word, br: Word, mode: Word)
    ensures Packets([Register(TL, tl), Register(BR, br), Register(MODE, mode)]) == ReplayWords(tl, br, mode)
  {
    var rs := [Register(TL, tl), Register(BR, br), Register(MODE, mode)];
    assert Longest(rs, 1) == 2 by {
      assert Longest(rs, 2) == 2;
    }
    var first, second := rs[..2], rs[2..];
    assert Packet(first) == [0xc002_6900, TL, tl, br] by { assert Values(first) == [tl, br]; }
    assert second == [Register(MODE, mode)] && Longest(second, 1) == 1 && second[..1] == second;
    assert Packet(second) == [0xc001_6900, MODE, mode] by { assert Values(second) == [mode]; }
    assert Packets(second[1..]) == [];
    assert Packets(second) == Packet(second) + [] == Packet(second);
    assert Packets(rs) == Packet(first) + Packets(second);
  }

  /** Replaying the scissor of a state that has just been written changes nothing. */
  lemma ReplayIsIdempotent(file: File, cx: seq<Register>)
    requires WritesScissor(cx)
    ensures Execute(Apply(file, cx), Packets(Scissor(cx))) == Apply(file, cx)
  {
    hide Apply, Execute, Last;
    var s := Scissor(cx);
    ShortListsFit(s);
    PacketsWriteTheList(Apply(file, cx), s);
    forall offset: Word ensures At(Apply(Apply(file, cx), s), offset) == At(Apply(file, cx), offset) {
      ApplyIsLast(Apply(file, cx), s, offset);
      ApplyIsLast(file, cx, offset);
      ScissorLast(cx, offset);
    }
    SameFile(Apply(Apply(file, cx), s), Apply(file, cx));
  }

  lemma ScissorLast(cx: seq<Register>, offset: Word)
    requires WritesScissor(cx)
    ensures var replayed := offset == TL || offset == BR || offset == MODE;
      Last(Scissor(cx), offset) == if replayed then Last(cx, offset) else None
  {
    var s := Scissor(cx);
    NextLast(s, 0, offset);
    NextLast(s, 1, offset);
    NextLast(s, 2, offset);
    assert s[..3] == s;
  }
}
