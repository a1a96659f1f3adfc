/** The emission of a draw and the view it shows (native/draw_emit_ps5.c): register
    banks, the view's own words behind them, and the rest. */
module DrawEmission {
  import opened Words
  import opened ContextRegisters
  import opened ViewTargets
  import opened ViewMeaning

  /** What the packets behind the view's check need at least. */
  const REST_WORDS: nat := 17

  /** What a draw emits for its view: nothing when it has none. */
  function Delta(v: Option<View>): (delta: seq<Register>)
    requires v.Some? ==> ViewAccepted(v.value)
    ensures |delta| <= 44
  {
    if v.None? then [] else ViewDelta(v.value)
  }

  /** Whether a writer has words and room for them. */
  predicate Fits(words: Option<seq<Word>>, room: int) { words.Some? && |words.value| <= room }

  /** How an emission ends: the register banks come first, the view's words behind
      them, then the rest of the draw. `late` is what that rest fails with. */
  function Outcome(capacity: nat, v: Option<View>, banks: Option<seq<Word>>, rest: Option<seq<Word>>,
      late: VkResult): VkResult {
    if v.Some? && !ViewAccepted(v.value) then Unknown
    else
      var words := WordCount(Delta(v));
      if capacity < REST_WORDS + words then OutOfHostMemory
      else if !Fits(banks, capacity) then Unknown
      else if capacity - |banks.value| < words then OutOfHostMemory
      else if !Fits(rest, capacity - |banks.value| - words) then late
      else Success
  }

  /** An emission goes through exactly when its view is accepted, the room is what the
      packets behind the check need at least, and all its words fit; a view that is
      refused is told apart from a lack of room. */
  lemma OutcomeIff(capacity: nat, v: Option<View>, banks: Option<seq<Word>>, rest: Option<seq<Word>>, late: VkResult)
    requires late != Success
    ensures v.Some? && !ViewAccepted(v.value) ==> Outcome(capacity, v, banks, rest, late) == Unknown
    ensures (v.Some? ==> ViewAccepted(v.value)) ==>
      && (Outcome(capacity, v, banks, rest, late) == Success <==>
            && banks.Some? && rest.Some? && 17 + |Packets(Delta(v))| <= capacity
            && |DrawWords(v, banks.value, rest.value)| <= capacity)
      && (17 + |Packets(Delta(v))| > capacity ==> Outcome(capacity, v, banks, rest, late) == OutOfHostMemory)
  {
    hide ViewAccepted, Packets, Delta;
  }

  /** All words of an emission. */
  function DrawWords(v: Option<View>, banks: seq<Word>, rest: seq<Word>): seq<Word>
    requires v.Some? ==> ViewAccepted(v.value)
  {
    banks + Packets(Delta(v)) + rest
  }

  // ----- what the emission does

  lemma {:induction false} ExecuteAppend(file: File, a: seq<Word>, b: seq<Word>)
    requires Decode(a).Some?
    ensures Execute(file, a + b) == Execute(Execute(file, a), b)
    decreases |a|
  {
    hide Set;
    if a == [] {
      assert a + b == b;
    } else {
      var n := 2 + Announced(a[0]);
      assert (a + b)[2..n] == a[2..n] && (a + b)[n..] == a[n..] + b;
      ExecuteAppend(Set(file, a[1], a[2..n]), a[n..], b);
    }
  }

  /** Banks that hold the prepared targets and other state, and the view's packets
      behind them, select the view's layer: the registers end up as the view's own
      targets and the other state would leave them. */
  lemma DrawSelectsTheView(v: View, banks: seq<Word>, others: seq<Register>, file: File)
    requires ViewAccepted(v) && !Shadowed(v) && Quiet(others) && Decode(banks) == Some(Prepared(v) + others)
    ensures Execute(file, banks + Packets(ViewDelta(v))) == Apply(file, Wanted(v) + others)
  {
    hide Packets, Execute, Decode, Apply, Quiet, Shadowed, ViewAccepted, ViewDelta;
    ExecuteAppend(file, banks, Packets(ViewDelta(v)));
    ExecuteDecoded(file, banks);
    PacketsSelectTheView(v, file, others);
  }

  /** Without a view, or with one whose layer is the prepared one, there is nothing
      between the banks and the rest. */
  lemma NothingBetween(v: Option<View>, banks: seq<Word>, rest: seq<Word>)
    requires v.Some? ==>
      ViewAccepted(v.value) && v.value.preparedColor == v.value.viewColor && v.value.preparedDepth == v.value.viewDepth
    ensures DrawWords(v, banks, rest) == banks + rest
  {
    hide Packets;
    NothingToEmit();
    if v.Some? { NoWordsIffSameLayer(v.value); }
    assert banks + [] == banks;
  }

  /** An emission that went through does what its caller meant it to. */
  ghost predicate Shows(v: View, banks: seq<Word>, others: seq<Register>, ws: seq<Word>)
    requires ViewAccepted(v)
  {
    !Shadowed(v) && Quiet(others) && Decode(banks) == Some(Prepared(v) + others) ==>
      forall file: File :: Execute(file, ws) == Apply(file, Wanted(v) + others)
  }

  lemma DrawShows(v: View, banks: seq<Word>, others: seq<Register>)
    requires ViewAccepted(v)
    ensures Shows(v, banks, others, banks + Packets(ViewDelta(v)))
  {
    hide Packets, Execute, Decode, Apply, Quiet, Shadowed, ViewAccepted, ViewDelta;
    if !Shadowed(v) && Quiet(others) && Decode(banks) == Some(Prepared(v) + others) {
      forall file: File
        ensures Execute(file, banks + Packets(ViewDelta(v))) == Apply(file, Wanted(v) + others)
      {
        DrawSelectsTheView(v, banks, others, file);
      }
    }
  }

  /** The words written: what shows the view, and then the rest. */
  ghost predicate Delivered(v: Option<View>, banks: seq<Word>, rest: seq<Word>, others: seq<Register>,
      memory: seq<Word>, cursor: nat, next: nat)
    requires v.Some? ==> ViewAccepted(v.value)
  {
    var middle := next - |rest|;
    && cursor <= middle && next <= |memory| && memory[middle..next] == rest
    && (v.Some? ==> Shows(v.value, banks, others, memory[cursor..middle]))
    && (v.None? ==> memory[cursor..middle] == banks)
  }

  lemma IsDelivered(v: Option<View>, banks: seq<Word>, rest: seq<Word>, others: seq<Register>, before: seq<Word>,
      at: nat)
    requires v.Some? ==> ViewAccepted(v.value)
    requires at + |DrawWords(v, banks, rest)| <= |before|
    ensures var words := DrawWords(v, banks, rest);
      Delivered(v, banks, rest, others, Overwrite(before, at, words), at, at + |words|)
  {
    hide Packets, ViewAccepted, ViewDelta, Overwrite, Shows;
    Written(before, at, banks + Packets(Delta(v)), rest);
    NothingToEmit();
    if v.Some? {
      DrawShows(v.value, banks, others);
    } else {
      assert banks + [] == banks;
    }
  }

  /** The view's words are collected and their room is checked before the first word
      is written. They land behind the banks and before what draws. A failure leaves
      the cursor where it was and may leave words in the room behind it. `others` is
      what the banks hold besides the prepared targets. */
  method EmitDraw(out: array<Word>, cursor: nat, capacity: nat, v: Option<View>, banks: Option<seq<Word>>,
      rest: Option<seq<Word>>, late: VkResult, ghost others: seq<Register>)
    returns (rc: VkResult, next: nat)
    requires cursor + capacity <= out.Length && late != Success
    modifies out
    ensures rc == Outcome(capacity, v, banks, rest, late)
    ensures rc == Success ==>
      && next == cursor + |DrawWords(v, banks.value, rest.value)| <= cursor + capacity
      && out[..] == Overwrite(old(out[..]), cursor, DrawWords(v, banks.value, rest.value))
    ensures rc == Success ==> Delivered(v, banks.value, rest.value, others, out[..], cursor, next)
    ensures rc != Success ==> next == cursor
    ensures out[..cursor] == old(out[..cursor]) && out[cursor + capacity..] == old(out[cursor + capacity..])
    ensures (v.Some? && !ViewAccepted(v.value)) || capacity < REST_WORDS + WordCount(Delta(v)) ==>
      out[..] == old(out[..])
  {
    hide ViewAccepted, ViewDelta, Packets, Overwrite, Delivered;
    ghost var before := out[..];
    var changed := new Register[CAPACITY](_ => Register(0, 0));
    var count, words := 0, 0;
    NothingToEmit();
    if v.Some? {
      if ViewAccepted(v.value) {
        AcceptedViewFits(v.value);
      }
      rc, count, words := CollectViewTargets(changed, CAPACITY, v.value);
      if rc != Success {
        return rc, cursor;
      }
    }
    assert changed[..count] == Delta(v) && words == WordCount(Delta(v));
    if capacity < REST_WORDS + words {
      return OutOfHostMemory, cursor;
    }
    if !Fits(banks, capacity) {
      return Unknown, cursor;
    }
    CopyInto(out, cursor, banks.value);
    Untouched(before, cursor, banks.value, capacity);
    next := cursor + |banks.value|;
    ghost var delta := Packets(Delta(v));
    DeltaWords(Delta(v));
    if count > 0 {
      rc, next := EmitContextRuns(out, next, capacity - |banks.value|, changed[..count]);
      if rc != Success {
        return rc, cursor;
      }
      OverwriteAfter(before, cursor, banks.value, delta);
      Untouched(before, cursor, banks.value + delta, capacity);
    } else {
      assert banks.value + delta == banks.value;
    }
    if !Fits(rest, capacity - |banks.value| - words) {
      return late, cursor;
    }
    CopyInto(out, next, rest.value);
    OverwriteAfter(before, cursor, banks.value + delta, rest.value);
    Untouched(before, cursor, banks.value + delta + rest.value, capacity);
    IsDelivered(v, banks.value, rest.value, others, before, cursor);
    return Success, next + |rest.value|;
  }

  lemma NothingToEmit()
    ensures Packets([]) == []
  {
  }

  lemma Written(before: seq<Word>, at: nat, a: seq<Word>, b: seq<Word>)
    requires at + |a + b| <= |before|
    ensures var after := Overwrite(before, at, a + b);
      && |after| == |before|
      && after[at..at + |a|] == a && after[at + |a|..at + |a| + |b|] == b
  {
  }

  lemma Untouched(before: seq<Word>, at: nat, words: seq<Word>, capacity: nat)
    requires |words| <= capacity && at + capacity <= |before|
    ensures var after := Overwrite(before, at, words);
      && |after| == |before|
      && after[..at] == before[..at]
      && after[at + capacity..] == before[at + capacity..]
  {
  }
}
