/** The call of native/color_rect_clear.h as a whole: its checks, its two passes,
    and what the words it emits do to memory. */
module RectClearCall {
  import opened Words
  import opened ColorDetile
  import opened TexelMap
  import opened DmaFill
  import opened RectPlan
  import opened RectClear

  // ----- arguments

  /** The arguments of a clear as the caller gives them; the rectangle's origin
      may be negative. */
  datatype Request = Request(base: nat, allocation: nat, stride: nat, width: Word, height: Word, layers: Word,
    viewMask: Word, x: int, y: int, extentX: Word, extentY: Word, word: Word)

  /** Bits of a mask from bit n on. */
  function Shifted(mask: nat, n: nat): nat { if n == 0 then mask else Shifted(mask / 2, n - 1) }

  predicate Refused(q: Request) {
    || q.base == 0 || q.base % 4 != 0 || q.base >= ADDRESS_LIMIT || q.allocation > ADDRESS_LIMIT - q.base
    || q.layers == 0 || q.layers > 32 || q.width > U32 - 1 - 4 || q.height > U32 - 1 - 8
    || SurfaceSize(q.width, q.height).None? || q.stride < SurfaceSize(q.width, q.height).value || q.stride % 4 != 0
    || q.stride > q.allocation / q.layers || q.x < 0 || q.y < 0
    || q.extentX == 0 || q.extentY == 0
    || q.x > q.width || q.extentX > q.width - q.x
    || q.y > q.height || q.extentY > q.height - q.y
    || (q.layers < 32 && Shifted(q.viewMask, q.layers) != 0)
  }

  /** An empty view mask means layer 0. */
  function Mask(q: Request): Word { if q.viewMask != 0 then q.viewMask else 1 }

  function Chosen(mask: nat): nat -> bool { (layer: nat) => Bit(mask, layer) }

  function Dwords(width: nat): (nat, nat) -> nat { (x: nat, y: nat) => Dword(x, y, width) }

  function ClearOf(q: Request): Clear
    requires !Refused(q)
  {
    Clear(q.stride, q.width, q.height, q.layers, Chosen(Mask(q)),
          q.x, q.y, q.x + q.extentX, q.y + q.extentY, Dwords(q.width))
  }

  function Ranges(q: Request): seq<Range>
    requires !Refused(q)
  {
    Plan(ClearOf(q), 0)
  }

  // ----- an accepted request is a good clear

  lemma {:induction false} ShiftedEmpty(mask: nat, n: nat)
    requires Shifted(mask, n) == 0
    ensures mask < Pow2(n)
  {
    if n > 0 { ShiftedEmpty(mask / 2, n - 1); }
  }

  lemma {:induction false} SomeBit(mask: nat, n: nat) returns (k: nat)
    requires 0 < mask < Pow2(n)
    ensures k < n && Bit(mask, k)
  {
    if mask % 2 == 1 {
      k := 0;
    } else {
      k := SomeBit(mask / 2, n - 1);
      k := k + 1;
    }
  }

  lemma Pow32()
    ensures Pow2(32) == U32
  {
    assert Pow2(8) == 0x100;
    assert Pow2(16) == 0x1_0000;
    assert Pow2(24) == 0x100_0000;
  }

  /** An accepted request selects a layer it has. */
  lemma SomeLayer(q: Request) returns (layer: nat)
    requires !Refused(q)
    ensures layer < q.layers && Bit(Mask(q), layer)
  {
    if q.viewMask == 0 {
      layer := 0;
    } else {
      if q.layers < 32 { ShiftedEmpty(q.viewMask, q.layers); } else { Pow32(); }
      layer := SomeBit(q.viewMask, q.layers);
    }
  }

  lemma SameRowDword(left: nat, x: nat, y: nat, width: nat)
    requires SameRow(left, x)
    ensures Dword(x, y, width) == Dword(left, y, width) + (x - left)
  {
  }

  lemma FirstOfDword(col: nat, row: nat, x: nat, y: nat, width: nat)
    requires FirstOf(col, row, x, y)
    ensures Dword(x, y, width) == Dword(col, row, width) + 4 * (y - row) + (x - col)
  {
    assert x / 4 == col / 4 && y / 8 == row / 8 && y % 8 == y - row && x % 4 == x - col;
  }

  lemma BlockEnds(x: nat, y: nat, width: nat, height: nat)
    requires x < width && y < height && SurfaceSize(width, height).Some?
    ensures 4 * Dword(x, y, width) + 4 * (4 - x % 4) + 16 * (7 - y % 8) <= SurfaceSize(width, height).value
    ensures Offset(x, y, width) == Some(4 * Dword(x, y, width))
  {
    hide Block, SurfaceSize, Offset;
    TexelInSurface(x, y, width, height);
    OffsetIsDword(x, y, width);
  }

  lemma RequestIsValid(q: Request)
    requires !Refused(q)
    ensures ValidClear(ClearOf(q))
  {
    hide Dword, Shifted, Bit;
    if q.stride == 0 {
      BlockEnds(0, 0, q.width, q.height);
    }
  }

  lemma RequestIsGood(q: Request)
    requires !Refused(q)
    ensures GoodMap(ClearOf(q)) && Injective(ClearOf(q)) && OnRx(ClearOf(q))
  {
    hide Dword, Shifted, Bit, SurfaceSize, Offset;
    var c := ClearOf(q);
    RequestIsValid(q);
    forall left: nat, x: nat, y: nat | SameRow(left, x) ensures c.at(x, y) == c.at(left, y) + (x - left) {
      SameRowDword(left, x, y, q.width);
    }
    forall col: nat, row: nat, x: nat, y: nat | FirstOf(col, row, x, y)
      ensures c.at(x, y) == c.at(col, row) + 4 * (y - row) + (x - col) {
      FirstOfDword(col, row, x, y, q.width);
    }
    forall x: nat, y: nat | OnSurface(c, x, y)
      ensures 4 * c.at(x, y) + 4 * (4 - x % 4) + 16 * (7 - y % 8) <= c.stride
      ensures Offset(x, y, c.width) == Some(4 * c.at(x, y))
    {
      BlockEnds(x, y, q.width, q.height);
    }
    forall x: nat, y: nat, x': nat, y': nat | x < c.width && x' < c.width && c.at(x, y) == c.at(x', y')
      ensures x == x' && y == y'
    {
      DwordInjective(x, y, x', y', q.width);
    }
  }

  lemma LayersFit(stride: nat, layers: nat, allocation: nat)
    requires layers > 0 && stride <= allocation / layers
    ensures layers * stride <= allocation
  {
    assert layers * stride <= layers * (allocation / layers);
  }

  /** Every range of an accepted request lies in the allocation. */
  lemma RangesBounded(q: Request)
    requires !Refused(q)
    ensures Bounded(Ranges(q), 0, q.allocation)
  {
    hide Dword, Shifted, Bit, SurfaceSize, Plan;
    RequestIsValid(q);
    RequestIsGood(q);
    PlanBounded(ClearOf(q), 0);
    BaseIsProduct(ClearOf(q), q.layers);
    LayersFit(q.stride, q.layers, q.allocation);
  }

  // ----- what is accepted

  lemma {:induction false} NoBits(k: nat)
    ensures !Bit(0, k) && (Bit(1, k) <==> k == 0)
    decreases k
  {
    if k > 0 { NoBits(k - 1); }
  }

  /** Set bits of a mask are below n exactly when nothing is left above them. */
  lemma {:induction false} ShiftedIff(mask: nat, n: nat, k: nat)
    requires k >= n
    ensures Bit(mask, k) == Bit(Shifted(mask, n), k - n)
  {
    if n > 0 { ShiftedIff(mask / 2, n - 1, k - 1); }
  }

  lemma {:induction false} LowestAbove(n: nat) returns (k: nat)
    requires n > 0
    ensures Bit(n, k)
  {
    if n % 2 == 1 {
      k := 0;
    } else {
      k := LowestAbove(n / 2);
      k := k + 1;
    }
  }

  lemma {:induction false} NoBitsAbove(n: nat, width: nat, k: nat)
    requires n < Pow2(width) && k >= width
    ensures !Bit(n, k)
    decreases k
  {
    if width > 0 {
      NoBitsAbove(n / 2, width - 1, k - 1);
    } else if k > 0 {
      NoBitsAbove(n / 2, 0, k - 1);
    }
  }

  ghost predicate NamesMissingLayer(q: Request) { exists k: nat :: k >= q.layers && Bit(q.viewMask, k) }

  lemma MaskNamesLayers(q: Request)
    requires q.layers <= 32
    ensures (q.layers < 32 && Shifted(q.viewMask, q.layers) != 0) <==> NamesMissingLayer(q)
  {
    hide Bit, Shifted;
    if q.layers == 32 {
      Pow32();
      forall k: nat | k >= 32 ensures !Bit(q.viewMask, k) { NoBitsAbove(q.viewMask, 32, k); }
    } else if Shifted(q.viewMask, q.layers) != 0 {
      var k := LowestAbove(Shifted(q.viewMask, q.layers));
      ShiftedIff(q.viewMask, q.layers, k + q.layers);
    } else {
      forall k: nat | k >= q.layers ensures !Bit(q.viewMask, k) {
        ShiftedIff(q.viewMask, q.layers, k);
        NoBits(k - q.layers);
      }
    }
  }

  /** What a request must be: dword aligned memory below the address limit that
      holds all its layers, each long enough for the surface, a rectangle of at
      least one texel on the surface, and a mask that names no layer there is not. */
  ghost predicate Acceptable(q: Request) {
    && 0 < q.base && q.base % 4 == 0 && q.base + q.allocation <= ADDRESS_LIMIT
    && 1 <= q.layers <= 32 && q.layers * q.stride <= q.allocation
    && q.width + 4 < U32 && q.height + 8 < U32
    && q.stride % 4 == 0 && SurfaceSize(q.width, q.height).Some? && SurfaceSize(q.width, q.height).value <= q.stride
    && 0 <= q.x && q.x + 1 <= q.x + q.extentX <= q.width
    && 0 <= q.y && q.y + 1 <= q.y + q.extentY <= q.height
    && !NamesMissingLayer(q)
  }

  /** The checks accept exactly the requests that can be carried out. */
  lemma AcceptedIff(q: Request)
    ensures !Refused(q) <==> Acceptable(q)
  {
    hide NamesMissingLayer, Shifted, SurfaceSize;
    if 1 <= q.layers <= 32 {
      MaskNamesLayers(q);
      RoomForLayers(q.stride, q.allocation, q.layers, q.stride <= q.allocation / q.layers, q.layers * q.stride);
      SurfaceIsPositive(q.width, q.height);
    }
  }

  lemma RoomForLayers(stride: nat, allocation: nat, layers: nat, fits: bool, total: nat)
    requires layers > 0 && fits == (stride <= allocation / layers) && total == layers * stride
    ensures fits <==> total <= allocation
    ensures stride <= total
  {
    AtMost(stride, allocation, layers);
    Scale(1, layers, stride);
  }

  lemma SurfaceIsPositive(width: nat, height: nat)
    ensures SurfaceSize(width, height).Some? ==> SurfaceSize(width, height).value > 0
  {
    if SurfaceSize(width, height).Some? { TexelInSurface(0, 0, width, height); }
  }

  /** A clear of an 8x8 corner of one tile, for instance, is accepted. */
  lemma SmallRequest(word: Word) returns (q: Request)
    ensures !Refused(q) && !Whole(ClearOf(q)) && q.word == word
  {
    hide Dword, Bit;
    q := Request(0x1000, 0x1_0000, 0x1_0000, 128, 128, 1, 1, 0, 0, 8, 8, word);
    OneTile();
  }

  lemma OneTile()
    ensures SurfaceSize(128, 128) == Some(0x1_0000)
  {
    assert TilesAcross(128) == 1;
  }

  // ----- a pass as a whole

  /** Where a pass stands after some ranges that all lie in the allocation. */
  predicate Went(j: Job, before: seq<Word>, s: State, rs: seq<Range>) {
    var ws := PlanWords(j.base, rs, j.word);
    && s.ok == (PlanLength(rs) <= j.capacity <= |before|)
    && (s.ok ==> s.used == PlanLength(rs) == |ws|)
    && (s.ok && j.emit ==> s.out == Overwrite(before, 0, ws))
    && (!j.emit ==> s.out == before)
  }

  lemma WentFurther(j: Job, before: seq<Word>, s: State, rs: seq<Range>, r: Range)
    requires j.capacity <= |s.out| == |before| && Went(j, before, s, rs) && Bounded([r], 0, j.allocation)
    ensures Went(j, before, if s.ok then Step(j, s, r) else s, rs + [r])
  {
    hide Packets, FillWords, Overwrite, PlanWords, PlanLength;
    assert [r][0] == r;
    WordsSnoc(j.base, rs, r, j.word);
    LengthOfWords(j.base, rs + [r], j.word);
    FillLength(j.base + r.offset, r.bytes, j.word);
    if s.ok && PlanLength(rs + [r]) <= j.capacity {
      OverwriteThen(before, PlanWords(j.base, rs, j.word), FillWords(j.base + r.offset, r.bytes, j.word));
    }
  }

  lemma {:induction false} FitsOrNot(j: Job, before: seq<Word>, rs: seq<Range>)
    requires j.capacity <= |before| && Bounded(rs, 0, j.allocation)
    ensures Went(j, before, Run(j, State(true, 0, before), rs), rs)
    decreases |rs|
  {
    hide Step;
    if rs == [] {
      assert Overwrite(before, 0, []) == before;
    } else {
      var front, last := rs[..|rs| - 1], rs[|rs| - 1];
      var s := Run(j, State(true, 0, before), front);
      FitsOrNot(j, before, front);
      RunAppend(j, State(true, 0, before), front, [last]);
      assert front + [last] == rs;
      WentFurther(j, before, s, front, last);
      if s.ok { RunFirst(j, s, last, []); }
    }
  }

  lemma OverwriteThen(memory: seq<Word>, a: seq<Word>, b: seq<Word>)
    requires |a| + |b| <= |memory|
    ensures Overwrite(Overwrite(memory, 0, a), |a|, b) == Overwrite(memory, 0, a + b)
  {
  }

  /** An accepted request fills something. */
  lemma SomethingToFill(q: Request)
    requires !Refused(q)
    ensures Ranges(q) != [] && PlanLength(Ranges(q)) > 0
  {
    hide Dword, Shifted, Bit, SurfaceSize;
    var c := ClearOf(q);
    var layer := SomeLayer(q);
    RequestIsValid(q);
    RequestIsGood(q);
    RangesBounded(q);
    var a := Base(c, layer) + 4 * c.at(c.x0, c.y0);
    assert Owns(c, layer, c.x0, c.y0, a);
    if Whole(c) { assert OnSurface(c, c.x0, c.y0); }
    assert TargetIn(c, layer, a);
    ExactCoverage(c, a);
    assert Ranges(q) != [];
    LastCounts(Ranges(q));
  }

  lemma LastCounts(rs: seq<Range>)
    requires rs != [] && rs[|rs| - 1].bytes > 0
    ensures PlanLength(rs) > 0
  {
  }

  /** The clear: refused, or too long for the room, and then nothing is written;
      or exactly the packets of its ranges, from the start of the output on. */
  method ColorRectClear(out: array<Word>, capacity: nat, q: Request) returns (used: nat)
    requires capacity <= out.Length
    modifies out
    ensures (used == 0) == (Refused(q) || PlanLength(Ranges(q)) > capacity)
    ensures used == 0 ==> out[..] == old(out[..])
    ensures used > 0 ==> used == PlanLength(Ranges(q)) == |PlanWords(q.base, Ranges(q), q.word)|
    ensures used > 0 ==> out[..] == Overwrite(old(out[..]), 0, PlanWords(q.base, Ranges(q), q.word))
  {
    hide Dword, Shifted, Bit, SurfaceSize, Plan, Run, PlanWords, PlanLength, Overwrite;
    if Refused(q) {
      return 0;
    }
    var c := ClearOf(q);
    RequestIsGood(q);
    RangesBounded(q);
    SomethingToFill(q);
    ghost var before := out[..];
    var counting := Job(q.base, q.allocation, capacity, q.word, false);
    var emitting := Job(q.base, q.allocation, capacity, q.word, true);
    FitsOrNot(counting, before, Ranges(q));
    FitsOrNot(emitting, before, Ranges(q));
    var ok, counted := Pass(counting, out, c);
    if !ok {
      return 0;
    }
    ok, used := Pass(emitting, out, c);
    if !ok {
      assert false;
    }
  }

  // ----- what the packets do

  function PlanFills(base: nat, rs: seq<Range>, word: Word): seq<Fill> {
    if rs == [] then []
    else PlanFills(base, rs[..|rs| - 1], word) + Chunks(base + rs[|rs| - 1].offset, rs[|rs| - 1].bytes, word)
  }

  lemma {:induction false} WordsDecode(base: nat, allocation: nat, rs: seq<Range>, word: Word)
    requires Bounded(rs, 0, allocation) && base + allocation <= ADDRESS_LIMIT
    ensures Decode(PlanWords(base, rs, word)) == Some(PlanFills(base, rs, word))
    decreases |rs|
  {
    if rs != [] {
      var front, last := rs[..|rs| - 1], rs[|rs| - 1];
      WordsDecode(base, allocation, front, word);
      FillDecodes(base + last.offset, last.bytes, word);
      DecodeAppend(PlanWords(base, front, word), FillWords(base + last.offset, last.bytes, word));
    }
  }

  /** Byte a of the allocation is written once for each range it lies in; no byte
      before the allocation is written. */
  lemma {:induction false} FillsWrite(base: nat, rs: seq<Range>, word: Word, address: nat)
    ensures forall i | 0 <= i < |PlanFills(base, rs, word)| :: PlanFills(base, rs, word)[i].value == word
    ensures Writes(PlanFills(base, rs, word), address) == if address < base then 0 else Hits(rs, address - base)
    decreases |rs|
  {
    if rs != [] {
      var front, last := rs[..|rs| - 1], rs[|rs| - 1];
      FillsWrite(base, front, word, address);
      ChunksAreExact(base + last.offset, last.bytes, word, address);
      WritesAppend(PlanFills(base, front, word), Chunks(base + last.offset, last.bytes, word), address);
      if base <= address {
        HitsAppend(front, [last], address - base);
        assert front + [last] == rs;
      }
    }
  }

  // ----- what a request asks for

  /** A view mask names layers by its bits; an empty one names layer 0. */
  predicate LayerAsked(q: Request, layer: nat) {
    layer < q.layers && if q.viewMask == 0 then layer == 0 else Bit(q.viewMask, layer)
  }

  /** The byte is one of the four of texel (x, y) in its layer. */
  predicate InTexel(q: Request, layer: nat, x: nat, y: nat, address: nat) {
    var offset := Offset(x, y, q.width);
    && offset.Some?
    && q.base + layer * q.stride + offset.value <= address < q.base + layer * q.stride + offset.value + 4
  }

  predicate InRectangle(q: Request, x: nat, y: nat) {
    q.x <= x < q.x + q.extentX && q.y <= y < q.y + q.extentY
  }

  /** A rectangle that is the whole surface stands for all bytes of a layer, any
      other for those of its texels. */
  ghost predicate LayerByte(q: Request, layer: nat, address: nat) {
    if q.x == 0 && q.y == 0 && q.extentX == q.width && q.extentY == q.height then
      q.base + layer * q.stride <= address < q.base + layer * q.stride + q.stride
    else exists x: nat, y: nat :: InRectangle(q, x, y) && InTexel(q, layer, x, y, address)
  }

  /** Byte `address` is one the request asks to clear. */
  ghost predicate Cleared(q: Request, address: nat) {
    exists layer: nat :: LayerAsked(q, layer) && LayerByte(q, layer, address)
  }

  lemma ChosenIsAsked(q: Request, layer: nat)
    requires !Refused(q) && layer < q.layers
    ensures ClearOf(q).chosen(layer) <==> LayerAsked(q, layer)
  {
    hide Shifted, SurfaceSize;
    NoBits(layer);
  }

  lemma OwnedIsInTexel(q: Request, layer: nat, x: nat, y: nat, address: nat)
    requires !Refused(q) && q.base <= address && x < q.width && y < q.height
    ensures Owns(ClearOf(q), layer, x, y, address - q.base) <==> InTexel(q, layer, x, y, address)
  {
    hide Dword, Offset, Shifted, SurfaceSize;
    BlockEnds(x, y, q.width, q.height);
    BaseIsProduct(ClearOf(q), layer);
  }

  lemma LayerBytesAreTargets(q: Request, layer: nat, address: nat)
    requires !Refused(q) && q.base <= address && layer < q.layers
    ensures LayerAsked(q, layer) && LayerByte(q, layer, address) <==> TargetIn(ClearOf(q), layer, address - q.base)
  {
    hide Dword, Shifted, SurfaceSize, LayerAsked, InTexel, Owns;
    var c := ClearOf(q);
    ChosenIsAsked(q, layer);
    BaseIsProduct(c, layer);
    if !Whole(c) {
      forall x: nat, y: nat | InRectangle(q, x, y)
        ensures Owns(c, layer, x, y, address - q.base) <==> InTexel(q, layer, x, y, address)
      {
        OwnedIsInTexel(q, layer, x, y, address);
      }
      if TargetIn(c, layer, address - q.base) {
        var x: nat, y: nat :| c.x0 <= x < c.x1 && c.y0 <= y < c.y1 && Owns(c, layer, x, y, address - q.base);
        assert InRectangle(q, x, y);
      }
    }
  }

  /** The clear's targets are the bytes asked for. */
  lemma ClearedIsTarget(q: Request, address: nat)
    requires !Refused(q)
    ensures Cleared(q, address) <==> q.base <= address && Target(ClearOf(q), 0, address - q.base)
  {
    hide Dword, Shifted, SurfaceSize, LayerByte, TargetIn, Bit;
    if q.base <= address {
      forall layer: nat | layer < q.layers
        ensures LayerAsked(q, layer) && LayerByte(q, layer, address) <==> TargetIn(ClearOf(q), layer, address - q.base)
      {
        LayerBytesAreTargets(q, layer, address);
      }
      if Cleared(q, address) {
        var layer: nat :| LayerAsked(q, layer) && LayerByte(q, layer, address);
        assert TargetIn(ClearOf(q), layer, address - q.base);
      }
      if Target(ClearOf(q), 0, address - q.base) {
        var layer: nat :| layer < q.layers && TargetIn(ClearOf(q), layer, address - q.base);
        assert LayerAsked(q, layer) && LayerByte(q, layer, address);
      }
    } else {
      forall layer: nat ensures !LayerByte(q, layer, address) { NothingBelow(q, layer, address); }
    }
  }

  lemma NothingBelow(q: Request, layer: nat, address: nat)
    requires address < q.base
    ensures !LayerByte(q, layer, address)
  {
    hide Offset;
    var start := layer * q.stride;
    forall x: nat, y: nat ensures !InTexel(q, layer, x, y, address) {
      assert q.base + start >= q.base;
    }
  }

  /** The packets of an accepted request, run in order, write every byte it asks
      for exactly once, with the clear word, and write no other byte. */
  lemma PacketsClearTheRectangle(q: Request, address: nat, before: Word)
    requires !Refused(q)
    ensures Decode(PlanWords(q.base, Ranges(q), q.word)).Some?
    ensures var fills := Decode(PlanWords(q.base, Ranges(q), q.word)).value;
            && Writes(fills, address) == Num(Cleared(q, address))
            && After(fills, address, before) == if Cleared(q, address) then q.word else before
  {
    hide Dword, Shifted, Bit, SurfaceSize, Plan, PlanWords, Decode, After, Writes, Target, Cleared;
    var fills := PlanFills(q.base, Ranges(q), q.word);
    RequestIsValid(q);
    RequestIsGood(q);
    RangesBounded(q);
    WordsDecode(q.base, q.allocation, Ranges(q), q.word);
    FillsWrite(q.base, Ranges(q), q.word, address);
    AfterFills(fills, address, before, q.word);
    ClearedIsTarget(q, address);
    if q.base <= address {
      ExactCoverage(ClearOf(q), address - q.base);
    }
  }
}
