/** What the moved words do to the register file: they take it from the prepared
    targets to the view's, and no shorter list of writes could. */
module ViewMeaning {
  import opened Words
  import opened ContextRegisters
  import opened ViewTargets

  // ----- the last write to a register

  function Last(rs: seq<Register>, offset: Word): Option<Word> {
    if rs == [] then None
    else if Last(rs[1..], offset).Some? then Last(rs[1..], offset)
    else if rs[0].offset == offset then Some(rs[0].value)
    else None
  }

  function Else(first: Option<Word>, second: Option<Word>): Option<Word> { if first.Some? then first else second }

  lemma {:induction false} LastAppend(a: seq<Register>, b: seq<Register>, offset: Word)
    ensures Last(a + b, offset) == Else(Last(b, offset), Last(a, offset))
    decreases |a|
  {
    if a == [] {
      assert a + b == b;
    } else {
      LastAppend(a[1..], b, offset);
      assert (a + b)[1..] == a[1..] + b;
    }
  }

  function At(file: File, offset: Word): Option<Word> { if offset in file then Some(file[offset]) else None }

  lemma {:induction false} ApplyIsLast(file: File, rs: seq<Register>, offset: Word)
    ensures At(Apply(file, rs), offset) == Else(Last(rs, offset), At(file, offset))
    decreases |rs|
  {
    if rs != [] { ApplyIsLast(file[rs[0].offset := rs[0].value], rs[1..], offset); }
  }

  lemma SameFile(f: File, g: File)
    requires forall offset: Word :: At(f, offset) == At(g, offset)
    ensures f == g
  {
    forall offset: Word ensures offset in f <==> offset in g {
      assert At(f, offset) == At(g, offset);
    }
    forall offset | offset in f ensures f[offset] == g[offset] {
      assert At(f, offset) == At(g, offset);
    }
  }

  // ----- the shapes

  predicate Distinct(offsets: seq<Word>) { forall i, j | 0 <= i < j < |offsets| :: offsets[i] != offsets[j] }

  lemma ShapesAreDistinct()
    ensures Distinct(COLOR_OFFSETS) && Distinct(DEPTH_OFFSETS)
    ensures forall i, j | 0 <= i < |COLOR_OFFSETS| && 0 <= j < |DEPTH_OFFSETS| :: COLOR_OFFSETS[i] != DEPTH_OFFSETS[j]
  {
    assert forall i | 0 <= i < |COLOR_OFFSETS| :: COLOR_OFFSETS[i] >= 0x318;
    assert forall j | 0 <= j < |DEPTH_OFFSETS| :: DEPTH_OFFSETS[j] < 0x318;
  }

  /** A list whose registers are at these offsets, in order. */
  predicate Shaped(offsets: seq<Word>, rs: seq<Register>) {
    |rs| == |offsets| && forall i | 0 <= i < |rs| :: rs[i].offset == offsets[i]
  }

  lemma {:induction false} NoneOutside(offsets: seq<Word>, rs: seq<Register>, offset: Word)
    requires Shaped(offsets, rs) && offset !in offsets
    ensures Last(rs, offset) == None
    decreases |rs|
  {
    if rs != [] {
      assert rs[0].offset == offsets[0];
      NoneOutside(offsets[1..], rs[1..], offset);
    }
  }

  lemma {:induction false} LastAt(offsets: seq<Word>, rs: seq<Register>, i: nat)
    requires Shaped(offsets, rs) && Distinct(offsets) && i < |rs|
    ensures Last(rs, offsets[i]) == Some(rs[i].value)
    decreases i
  {
    assert rs[0].offset == offsets[0];
    if i == 0 {
      NoneOutside(offsets[1..], rs[1..], offsets[0]);
    } else {
      LastAt(offsets[1..], rs[1..], i - 1);
    }
  }

  /** The moved registers, register by register: where the two lists agree nothing
      is written, elsewhere the view's value is. */
  lemma {:induction false} MovedIsDifference(offsets: seq<Word>, prepared: seq<Register>, view: seq<Register>,
      offset: Word)
    requires Shaped(offsets, prepared) && Shaped(offsets, view) && Distinct(offsets)
    ensures var same := Last(prepared, offset) == Last(view, offset);
      Last(Moved(prepared, view), offset) == if same then None else Last(view, offset)
    ensures Last(prepared, offset).Some? == Last(view, offset).Some?
    decreases |view|
  {
    if view != [] {
      assert prepared[0].offset == view[0].offset == offsets[0];
      MovedIsDifference(offsets[1..], prepared[1..], view[1..], offset);
      LastAppend(MovedOne(prepared[0], view[0]), Moved(prepared[1..], view[1..]), offset);
      if offset == offsets[0] {
        NoneOutside(offsets[1..], prepared[1..], offset);
        NoneOutside(offsets[1..], view[1..], offset);
      }
    }
  }

  // ----- one target

  lemma AcceptedShape(prepared: seq<Register>, view: seq<Register>) returns (offsets: seq<Word>)
    requires Accepted(prepared, view)
    ensures Shape(|view|) == Some(offsets) && Shaped(offsets, prepared) && Shaped(offsets, view) && Distinct(offsets)
    ensures forall i | 0 <= i < |view| :: MayMove(offsets[i], prepared[i], view[i])
  {
    ShapesAreDistinct();
    offsets := Shape(|view|).value;
    assert forall i | 0 <= i < |view| :: MayMove(offsets[i], prepared[i], view[i]);
  }

  /** A register whose value moves is a carrier and never pipeline-owned. */
  lemma MovedIsCarrier(prepared: seq<Register>, view: seq<Register>, offset: Word)
    requires Accepted(prepared, view)
    ensures var same := Last(prepared, offset) == Last(view, offset);
      Last(Moved(prepared, view), offset) == if same then None else Last(view, offset)
    ensures Last(prepared, offset).Some? == Last(view, offset).Some?
    ensures Last(prepared, offset) != Last(view, offset) ==> Carrier(offset) && !PipelineOwned(offset)
  {
    hide Carrier, PipelineOwned, Moved, Accepted, Shape;
    var offsets := AcceptedShape(prepared, view);
    MovedIsDifference(offsets, prepared, view, offset);
    if offset in offsets {
      var i :| 0 <= i < |offsets| && offsets[i] == offset;
      LastAt(offsets, prepared, i);
      LastAt(offsets, view, i);
      assert MayMove(offsets[i], prepared[i], view[i]);
    } else {
      NoneOutside(offsets, prepared, offset);
      NoneOutside(offsets, view, offset);
    }
  }

  // ----- both targets

  function Prepared(v: View): seq<Register>
    requires ViewAccepted(v)
  {
    v.preparedColor.value + List(v.preparedDepth)
  }

  function Wanted(v: View): seq<Register>
    requires ViewAccepted(v)
  {
    v.viewColor.value + List(v.viewDepth)
  }

  /** Writes that touch no carrier: what the rest of the draw state may be. */
  predicate Quiet(others: seq<Register>) { forall i | 0 <= i < |others| :: !Carrier(others[i].offset) }

  /** Two targets of one shape, where the second does not move a register that the
      first one does, and the two views disagree on it. */
  predicate Shadowed(v: View)
    requires ViewAccepted(v)
  {
    && v.viewDepth.Some? && |v.viewDepth.value| == |v.viewColor.value|
    && exists i | 0 <= i < |v.viewColor.value| ::
         && v.preparedColor.value[i].value != v.viewColor.value[i].value
         && v.preparedDepth.value[i].value == v.viewDepth.value[i].value
         && v.viewColor.value[i].value != v.viewDepth.value[i].value
  }

  lemma {:induction false} QuietIsQuiet(others: seq<Register>, offset: Word)
    requires Quiet(others) && Carrier(offset)
    ensures Last(others, offset) == None
    decreases |others|
  {
    if others != [] {
      assert !Carrier(others[0].offset);
      QuietIsQuiet(others[1..], offset);
    }
  }

  /** The second target's registers, or none. */
  lemma SecondIsCarrier(v: View, offset: Word)
    requires ViewAccepted(v)
    ensures var d, d' := Last(List(v.preparedDepth), offset), Last(List(v.viewDepth), offset);
            && Last(Moved(List(v.preparedDepth), List(v.viewDepth)), offset) == (if d == d' then None else d')
            && d.Some? == d'.Some? && (d != d' ==> Carrier(offset))
  {
    hide Carrier, Accepted, Moved;
    if v.preparedDepth.Some? {
      MovedIsCarrier(v.preparedDepth.value, v.viewDepth.value, offset);
    } else {
      MovedNone([], []);
    }
  }

  /** Unless a register is shadowed, a moved one that both targets have ends up
      with the second target's value either way. */
  lemma BothTargets(v: View, offset: Word)
    requires ViewAccepted(v) && !Shadowed(v)
    ensures var c, c' := Last(v.preparedColor.value, offset), Last(v.viewColor.value, offset);
            var d, d' := Last(List(v.preparedDepth), offset), Last(List(v.viewDepth), offset);
            c != c' && d == d' && d'.Some? ==> c' == d'
  {
    hide MayMove, Shape, Accepted;
    var p, w := v.preparedColor.value, v.viewColor.value;
    if v.viewDepth.Some? && Last(v.viewDepth.value, offset).Some? && Last(w, offset).Some? {
      var q, z := v.preparedDepth.value, v.viewDepth.value;
      var offsets := AcceptedShape(p, w);
      var offsets' := AcceptedShape(q, z);
      if offset !in offsets { NoneOutside(offsets, w, offset); }
      if offset !in offsets' { NoneOutside(offsets', z, offset); }
      SharedOffset(offsets, offsets', |w|, |z|, offset);
      var i :| 0 <= i < |offsets| && offsets[i] == offset;
      LastAt(offsets, p, i); LastAt(offsets, w, i); LastAt(offsets, q, i); LastAt(offsets, z, i);
    } else {
      MovedIsCarrier(p, w, offset);
    }
  }

  lemma SharedOffset(offsets: seq<Word>, offsets': seq<Word>, n: nat, m: nat, offset: Word)
    requires Shape(n) == Some(offsets) && Shape(m) == Some(offsets') && offset in offsets && offset in offsets'
    ensures offsets == offsets' && n == m
  {
    ShapesAreDistinct();
  }

  /** Register by register, the prepared targets and then the moved words are the
      view's targets. */
  lemma SameLast(v: View, others: seq<Register>, offset: Word)
    requires ViewAccepted(v) && !Shadowed(v) && Quiet(others)
    ensures Last(Prepared(v) + others + ViewDelta(v), offset) == Last(Wanted(v) + others, offset)
  {
    hide Carrier, Accepted, Moved, Shadowed, Quiet, Last, PipelineOwned;
    AcceptedLength(v.preparedColor.value, v.viewColor.value);
    AcceptedLength(List(v.preparedDepth), List(v.viewDepth));
    LastAppend(Prepared(v) + others, ViewDelta(v), offset);
    LastAppend(Prepared(v), others, offset);
    LastAppend(v.preparedColor.value, List(v.preparedDepth), offset);
    LastAppend(Moved(v.preparedColor.value, v.viewColor.value),
               Moved(List(v.preparedDepth), List(v.viewDepth)), offset);
    LastAppend(Wanted(v), others, offset);
    LastAppend(v.viewColor.value, List(v.viewDepth), offset);
    MovedIsCarrier(v.preparedColor.value, v.viewColor.value, offset);
    SecondIsCarrier(v, offset);
    BothTargets(v, offset);
    if Carrier(offset) { QuietIsQuiet(others, offset); }
  }

  /** The prepared targets, the rest of the draw state and the moved words leave
      every register as the view's targets and the rest of the state would. */
  ghost predicate MovesToView(v: View)
    requires ViewAccepted(v)
  {
    forall file: File, others: seq<Register> | Quiet(others) ::
      Apply(Apply(file, Prepared(v) + others), ViewDelta(v)) == Apply(file, Wanted(v) + others)
  }

  lemma DeltaMoves(v: View, file: File, others: seq<Register>)
    requires ViewAccepted(v) && !Shadowed(v) && Quiet(others)
    ensures Apply(Apply(file, Prepared(v) + others), ViewDelta(v)) == Apply(file, Wanted(v) + others)
  {
    hide Accepted, Shadowed, Quiet, Last, Apply;
    var all, wanted := Prepared(v) + others + ViewDelta(v), Wanted(v) + others;
    ApplyAppend(file, Prepared(v) + others, ViewDelta(v));
    forall offset: Word ensures At(Apply(file, all), offset) == At(Apply(file, wanted), offset) {
      SameLast(v, others, offset);
      ApplyIsLast(file, all, offset);
      ApplyIsLast(file, wanted, offset);
    }
    SameFile(Apply(file, all), Apply(file, wanted));
  }

  /** A shadowed register shows the wrong layer. */
  lemma ShadowedShowsWrongLayer(v: View)
    requires ViewAccepted(v) && Shadowed(v)
    ensures Apply(Apply(map[], Prepared(v)), ViewDelta(v)) != Apply(map[], Wanted(v))
  {
    hide MayMove, Moved, Apply;
    var p, w, q, z := v.preparedColor.value, v.viewColor.value, v.preparedDepth.value, v.viewDepth.value;
    var i :| 0 <= i < |w| && p[i].value != w[i].value && q[i].value == z[i].value && w[i].value != z[i].value;
    var offsets := AcceptedShape(p, w);
    var _ := AcceptedShape(q, z);
    var offset := offsets[i];
    LastAt(offsets, p, i); LastAt(offsets, w, i); LastAt(offsets, q, i); LastAt(offsets, z, i);
    MovedIsCarrier(p, w, offset);
    MovedIsCarrier(q, z, offset);
    LastAppend(Moved(p, w), Moved(q, z), offset);
    LastAppend(w, z, offset);
    ApplyIsLast(Apply(map[], Prepared(v)), ViewDelta(v), offset);
    ApplyIsLast(map[], Wanted(v), offset);
  }

  /** A target of the colour shape with one value in its first word and zeros. */
  function ColorTarget(first: Word): (rs: seq<Register>)
    ensures Shaped(COLOR_OFFSETS, rs)
  {
    seq(16, i requires 0 <= i < 16 => Register(COLOR_OFFSETS[i], if i == 0 then first else 0))
  }

  /** Such a view: both pairs of targets have the colour shape, and only the first
      one moves. It is accepted, and the words it moves show the wrong layer. */
  lemma ShadowedView() returns (v: View)
    ensures ViewAccepted(v) && Shadowed(v) && !MovesToView(v)
  {
    var zero, one := ColorTarget(0), ColorTarget(1);
    v := View(0, Some(zero), Some(one), Some(zero), Some(zero));
    OneWordMoves();
    assert zero[0].value != one[0].value;
    DeltaIsCorrectIff(v);
  }

  lemma OneWordMoves()
    ensures Accepted(ColorTarget(0), ColorTarget(1)) && Accepted(ColorTarget(0), ColorTarget(0))
  {
  }

  /** The view delta is correct exactly when no register is shadowed; a colour and
      a depth target of their own shapes never shadow each other. */
  lemma DeltaIsCorrectIff(v: View)
    requires ViewAccepted(v)
    ensures MovesToView(v) <==> !Shadowed(v)
    ensures v.viewDepth.Some? && |v.viewDepth.value| != |v.viewColor.value| ==> MovesToView(v)
    ensures v.viewDepth.None? ==> MovesToView(v)
  {
    hide Accepted, Apply;
    if Shadowed(v) {
      ShadowedShowsWrongLayer(v);
      assert Quiet([]);
      assert Prepared(v) + [] == Prepared(v) && Wanted(v) + [] == Wanted(v);
      assert Apply(Apply(map[], Prepared(v) + []), ViewDelta(v)) != Apply(map[], Wanted(v) + []);
    } else {
      forall file: File, others: seq<Register> | Quiet(others)
        ensures Apply(Apply(file, Prepared(v) + others), ViewDelta(v)) == Apply(file, Wanted(v) + others) {
        DeltaMoves(v, file, others);
      }
    }
  }

  // ----- which words may differ

  predicate DifferOnlyAt(prepared: seq<Register>, view: seq<Register>, places: set<Word>)
    requires |prepared| == |view|
  {
    forall i | 0 <= i < |view| && view[i].value != prepared[i].value :: view[i].offset in places
  }

  /** Two colour targets are accepted exactly when they differ at most in the words of
      the base address, two depth targets in those of the two planes' addresses. */
  lemma LayersDifferInAddresses(prepared: seq<Register>, view: seq<Register>)
    ensures Shaped(COLOR_OFFSETS, prepared) && Shaped(COLOR_OFFSETS, view) ==>
      (Accepted(prepared, view) <==> DifferOnlyAt(prepared, view, {0x318, 0x390}))
    ensures Shaped(DEPTH_OFFSETS, prepared) && Shaped(DEPTH_OFFSETS, view) ==>
      (Accepted(prepared, view) <==> DifferOnlyAt(prepared, view, {0x012, 0x014, 0x01a, 0x01c}))
  {
    hide COLOR_OFFSETS, DEPTH_OFFSETS;
    CarriersOfShapes();
  }

  lemma CarriersOfShapes()
    ensures |COLOR_OFFSETS| == 16 && |DEPTH_OFFSETS| == 22
    ensures forall i | 0 <= i < 16 :: (Carrier(COLOR_OFFSETS[i]) && !PipelineOwned(COLOR_OFFSETS[i])
                                       <==> COLOR_OFFSETS[i] in {0x318, 0x390})
    ensures forall i | 0 <= i < 22 :: (Carrier(DEPTH_OFFSETS[i]) && !PipelineOwned(DEPTH_OFFSETS[i])
                                       <==> DEPTH_OFFSETS[i] in {0x012, 0x014, 0x01a, 0x01c})
  {
  }

  // ----- the whole way: collected, encoded, executed

  /** Executing the packets of the delta on a register file that holds the prepared
      targets and the rest of the draw state selects the view's layer. */
  lemma PacketsSelectTheView(v: View, file: File, others: seq<Register>)
    requires ViewAccepted(v) && !Shadowed(v) && Quiet(others)
    ensures Execute(Apply(file, Prepared(v) + others), Packets(ViewDelta(v))) == Apply(file, Wanted(v) + others)
  {
    hide Accepted, Shadowed, Apply, Execute;
    ShortListsFit(ViewDelta(v));
    PacketsWriteTheList(Apply(file, Prepared(v) + others), ViewDelta(v));
    DeltaMoves(v, file, others);
  }

  lemma {:induction false} MovedFromView(offsets: seq<Word>, prepared: seq<Register>, view: seq<Register>, k: nat)
    requires |offsets| == |prepared| == |view| && k < |Moved(prepared, view)|
    requires forall i | 0 <= i < |view| :: MayMove(offsets[i], prepared[i], view[i])
    ensures var r := Moved(prepared, view)[k];
      r in view && r.offset in offsets && Carrier(r.offset) && !PipelineOwned(r.offset)
    decreases |view|
  {
    hide Carrier, PipelineOwned;
    assert MayMove(offsets[0], prepared[0], view[0]);
    var n := |MovedOne(prepared[0], view[0])|;
    if k >= n { MovedFromView(offsets[1..], prepared[1..], view[1..], k - n); }
  }

  /** Every word the view moves is one of its own targets' words, carries the layer
      address and is never pipeline-owned. */
  lemma DeltaWordsAreCarriers(v: View, k: nat)
    requires ViewAccepted(v) && k < |ViewDelta(v)|
    ensures var r := ViewDelta(v)[k]; r in Wanted(v) && Carrier(r.offset) && !PipelineOwned(r.offset)
  {
    hide Carrier, PipelineOwned, Moved, Shape;
    var offsets := AcceptedShape(v.preparedColor.value, v.viewColor.value);
    var n := |Moved(v.preparedColor.value, v.viewColor.value)|;
    if k < n {
      MovedFromView(offsets, v.preparedColor.value, v.viewColor.value, k);
    } else if v.viewDepth.Some? {
      var offsets' := AcceptedShape(v.preparedDepth.value, v.viewDepth.value);
      MovedFromView(offsets', v.preparedDepth.value, v.viewDepth.value, k - n);
    } else {
      MovedNone([], []);
    }
  }

  lemma {:induction false} NothingMovesIff(offsets: seq<Word>, prepared: seq<Register>, view: seq<Register>)
    requires |offsets| == |prepared| == |view|
    requires forall i | 0 <= i < |view| :: MayMove(offsets[i], prepared[i], view[i])
    ensures Moved(prepared, view) == [] <==> prepared == view
    decreases |view|
  {
    if view != [] {
      assert MayMove(offsets[0], prepared[0], view[0]);
      NothingMovesIff(offsets[1..], prepared[1..], view[1..]);
      assert prepared == [prepared[0]] + prepared[1..] && view == [view[0]] + view[1..];
    }
  }

  /** A view takes no word exactly when its layer is the prepared one already. */
  lemma NoWordsIffSameLayer(v: View)
    requires ViewAccepted(v)
    ensures WordCount(ViewDelta(v)) == 0 <==> v.preparedColor == v.viewColor && v.preparedDepth == v.viewDepth
  {
    hide MayMove, Moved, Shape;
    PacketsLength(ViewDelta(v));
    var offsets := AcceptedShape(v.preparedColor.value, v.viewColor.value);
    NothingMovesIff(offsets, v.preparedColor.value, v.viewColor.value);
    if v.viewDepth.Some? {
      var offsets' := AcceptedShape(v.preparedDepth.value, v.viewDepth.value);
      NothingMovesIff(offsets', v.preparedDepth.value, v.viewDepth.value);
    } else {
      MovedNone([], []);
    }
    assert ViewDelta(v) == [] ==> WordCount(ViewDelta(v)) == 0;
  }

  // ----- no shorter list of writes

  function OffsetsOf(rs: seq<Register>): set<Word> { set i | 0 <= i < |rs| :: rs[i].offset }

  lemma {:induction false} FewerOffsets(rs: seq<Register>)
    ensures |OffsetsOf(rs)| <= |rs|
    decreases |rs|
  {
    if rs != [] {
      FewerOffsets(rs[1..]);
      assert OffsetsOf(rs) == {rs[0].offset} + OffsetsOf(rs[1..]) by { OffsetsFirst(rs); }
    }
  }

  lemma OffsetsFirst(rs: seq<Register>)
    requires rs != []
    ensures OffsetsOf(rs) == {rs[0].offset} + OffsetsOf(rs[1..])
  {
    forall o | o in OffsetsOf(rs) ensures o in {rs[0].offset} + OffsetsOf(rs[1..]) {
      var i :| 0 <= i < |rs| && rs[i].offset == o;
      if i > 0 { assert rs[1..][i - 1].offset == o; }
    }
    forall o | o in OffsetsOf(rs[1..]) ensures o in OffsetsOf(rs) {
      var i :| 0 <= i < |rs[1..]| && rs[1..][i].offset == o;
      assert rs[i + 1].offset == o;
    }
  }

  /** Registers at different offsets. */
  predicate NoRepeats(rs: seq<Register>) { forall i, j | 0 <= i < j < |rs| :: rs[i].offset != rs[j].offset }

  lemma {:induction false} AsManyOffsets(rs: seq<Register>)
    requires NoRepeats(rs)
    ensures |OffsetsOf(rs)| == |rs|
    decreases |rs|
  {
    if rs != [] {
      AsManyOffsets(rs[1..]);
      OffsetsFirst(rs);
    }
  }

  lemma {:induction false} LastNeedsWrite(rs: seq<Register>, offset: Word)
    ensures Last(rs, offset).Some? <==> offset in OffsetsOf(rs)
    decreases |rs|
  {
    if rs != [] {
      OffsetsFirst(rs);
      LastNeedsWrite(rs[1..], offset);
    }
  }

  lemma {:induction false} MovedNoRepeats(offsets: seq<Word>, prepared: seq<Register>, view: seq<Register>)
    requires Shaped(offsets, prepared) && Shaped(offsets, view) && Distinct(offsets)
    ensures NoRepeats(Moved(prepared, view))
    ensures forall k | 0 <= k < |Moved(prepared, view)| :: Moved(prepared, view)[k].offset in offsets
    decreases |view|
  {
    if view != [] {
      hide NoRepeats, MovedOne;
      var one, tail := MovedOne(prepared[0], view[0]), Moved(prepared[1..], view[1..]);
      assert view[0].offset == offsets[0];
      MovedNoRepeats(offsets[1..], prepared[1..], view[1..]);
      MovedOneLength(prepared[0], view[0]);
      forall k | 0 <= k < |tail| ensures tail[k].offset != offsets[0] {
        assert tail[k].offset in offsets[1..];
      }
      OneMore(one, tail);
    } else {
      MovedNone(prepared, view);
    }
  }

  lemma OneMore(one: seq<Register>, tail: seq<Register>)
    requires |one| <= 1 && NoRepeats(tail)
    requires one != [] ==> forall k | 0 <= k < |tail| :: tail[k].offset != one[0].offset
    ensures NoRepeats(one + tail)
  {
  }

  lemma DeltaNoRepeats(v: View)
    requires ViewAccepted(v) && (v.viewDepth.Some? ==> |v.viewDepth.value| != |v.viewColor.value|)
    ensures NoRepeats(ViewDelta(v))
  {
    hide MayMove, Moved;
    ShapesAreDistinct();
    var offsets := AcceptedShape(v.preparedColor.value, v.viewColor.value);
    MovedNoRepeats(offsets, v.preparedColor.value, v.viewColor.value);
    if v.viewDepth.Some? {
      var offsets' := AcceptedShape(v.preparedDepth.value, v.viewDepth.value);
      MovedNoRepeats(offsets', v.preparedDepth.value, v.viewDepth.value);
    } else {
      MovedNone([], []);
    }
  }

  /** A register the delta writes differs between the prepared targets and the
      view's, so any list of writes that selects the view writes it too. */
  lemma DeltaIsNeeded(v: View, file: File, writes: seq<Register>, offset: Word)
    requires ViewAccepted(v) && (v.viewDepth.Some? ==> |v.viewDepth.value| != |v.viewColor.value|)
    requires Apply(Apply(file, Prepared(v)), writes) == Apply(file, Wanted(v))
    requires Last(ViewDelta(v), offset).Some?
    ensures Last(writes, offset).Some?
  {
    hide Carrier, Accepted, Moved, Last, Apply, PipelineOwned, Shape;
    var p, w, q, z := v.preparedColor.value, v.viewColor.value, List(v.preparedDepth), List(v.viewDepth);
    AcceptedLength(p, w);
    AcceptedLength(q, z);
    LastAppend(Moved(p, w), Moved(q, z), offset);
    LastAppend(p, q, offset);
    LastAppend(w, z, offset);
    MovedIsCarrier(p, w, offset);
    SecondIsCarrier(v, offset);
    OneTarget(v, offset);
    ApplyIsLast(Apply(file, Prepared(v)), writes, offset);
    ApplyIsLast(file, Prepared(v), offset);
    ApplyIsLast(file, Wanted(v), offset);
  }

  lemma OneTarget(v: View, offset: Word)
    requires ViewAccepted(v) && (v.viewDepth.Some? ==> |v.viewDepth.value| != |v.viewColor.value|)
    ensures Last(v.viewColor.value, offset).None? || Last(List(v.viewDepth), offset).None?
  {
    hide MayMove, Shape;
    var offsets := AcceptedShape(v.preparedColor.value, v.viewColor.value);
    if v.viewDepth.Some? && offset in offsets {
      var offsets' := AcceptedShape(v.preparedDepth.value, v.viewDepth.value);
      if offset in offsets' { SharedOffset(offsets, offsets', |v.viewColor.value|, |v.viewDepth.value|, offset); }
      NoneOutside(offsets', v.viewDepth.value, offset);
    } else if offset !in offsets {
      NoneOutside(offsets, v.viewColor.value, offset);
    }
  }

  /** The delta is minimal: whatever list of writes selects the view from the
      prepared targets, on any register file, is at least as long. */
  lemma DeltaIsMinimal(v: View, file: File, writes: seq<Register>)
    requires ViewAccepted(v) && (v.viewDepth.Some? ==> |v.viewDepth.value| != |v.viewColor.value|)
    requires Apply(Apply(file, Prepared(v)), writes) == Apply(file, Wanted(v))
    ensures |ViewDelta(v)| <= |writes|
  {
    hide Accepted, Moved, Last, Apply, NoRepeats, ViewDelta;
    forall offset | offset in OffsetsOf(ViewDelta(v)) ensures offset in OffsetsOf(writes) {
      LastNeedsWrite(ViewDelta(v), offset);
      DeltaIsNeeded(v, file, writes, offset);
      LastNeedsWrite(writes, offset);
    }
    DeltaNoRepeats(v);
    AsManyOffsets(ViewDelta(v));
    FewerOffsets(writes);
    Subset(OffsetsOf(ViewDelta(v)), OffsetsOf(writes));
  }

  lemma {:induction false} Subset(a: set<Word>, b: set<Word>)
    requires a <= b
    ensures |a| <= |b|
  {
    if a != {} {
      var x :| x in a;
      Subset(a - {x}, b - {x});
    }
  }
}
