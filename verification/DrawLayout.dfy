/** Where a prepared draw keeps its register state, vertex table, descriptor
    tables, push constants and copies of unaligned vertex data inside one
    allocation (native/draw_prepare_ps5.c). */
module DrawLayout {
  import opened Words

  const SETS: nat := 4

  /** One vertex binding: where its data is, or nowhere. */
  datatype Span = Span(address: nat, bytes: nat, stride: nat, extent: nat)

  /** What the regions are needed for. A set is None when the draw does not use it. */
  datatype Needs = Needs(state: nat, vertices: Option<seq<Span>>, sets: seq<Option<nat>>, push: nat)

  /** The sizes the callers and the layout of descriptor records allow: a state
      block with eight-byte alignment, tables of sixteen-byte records, 256 bytes of
      push constants. */
  predicate ValidNeeds(n: Needs) {
    && 0 < n.state < 0x1000_0000 && n.state % 8 == 0 && |n.sets| == SETS && n.push <= 256
    && (forall s | 0 <= s < SETS :: n.sets[s].Some? ==> n.sets[s].value <= 0x1_0000 && n.sets[s].value % 16 == 0)
    && (n.vertices.Some? ==> |n.vertices.value| <= 0x1_0000)
    && (n.vertices.Some? ==> forall i | 0 <= i < |n.vertices.value| :: n.vertices.value[i].bytes < U64)
  }

  /** The next multiple of sixteen, of four. */
  function Up16(x: nat): (y: nat)
    ensures x <= y < x + 16 && y % 16 == 0
  {
    x + 15 - (x + 15) % 16
  }

  function Up4(x: nat): (y: nat)
    ensures x <= y < x + 4 && y % 4 == 0
  {
    x + 3 - (x + 3) % 4
  }

  datatype Layout = Layout(table: nat, sets: seq<nat>, push: nat, bounce: seq<nat>, bytes: nat)

  // ----- the layout, region by region

  /** The end of the state block and the vertex table. */
  function TablesStart(n: Needs): nat { if n.vertices.Some? then Up16(n.state) + 16 * |n.vertices.value| else n.state }

  /** The end of the first k descriptor tables that start at `from`. */
  function SetsEnd(from: nat, sets: seq<Option<nat>>, k: nat): nat
    requires k <= |sets|
  {
    if k == 0 then from
    else if sets[k - 1].None? then SetsEnd(from, sets, k - 1)
    else Up16(SetsEnd(from, sets, k - 1)) + sets[k - 1].value
  }

  function SetOffset(from: nat, sets: seq<Option<nat>>, s: nat): nat
    requires s < |sets|
  {
    if sets[s].None? then 0 else Up16(SetsEnd(from, sets, s))
  }

  /** Vertex data the hardware cannot read where it is. */
  predicate Unaligned(v: Span) { v.address != 0 && v.address % 4 != 0 }

  /** The end of the first k copies; None if the sum leaves the address range. */
  function BounceEnd(from: nat, spans: seq<Span>, k: nat): Option<nat>
    requires k <= |spans|
  {
    if k == 0 then Some(from)
    else
      var end := BounceEnd(from, spans, k - 1);
      if end.None? || !Unaligned(spans[k - 1]) then end
      else if end.value > SIZE_MAX - 3 || spans[k - 1].bytes > SIZE_MAX - Up4(end.value) then None
      else Some(Up4(end.value) + spans[k - 1].bytes)
  }

  function BounceOffset(from: nat, spans: seq<Span>, i: nat): nat
    requires i < |spans| && BounceEnd(from, spans, i).Some?
  {
    if Unaligned(spans[i]) then Up4(BounceEnd(from, spans, i).value) else 0
  }

  function Spans(n: Needs): seq<Span> { if n.vertices.Some? then n.vertices.value else [] }

  function PushStart(n: Needs): nat { SetsEnd(TablesStart(n), n.sets, |n.sets|) }

  lemma {:induction false} BounceStays(from: nat, spans: seq<Span>, j: nat, k: nat)
    requires j <= k <= |spans| && BounceEnd(from, spans, k).Some?
    ensures BounceEnd(from, spans, j).Some?
    decreases k
  {
    if j < k { BounceStays(from, spans, j, k - 1); }
  }

  function Offsets(from: nat, spans: seq<Span>, k: nat): (offsets: seq<nat>)
    requires k <= |spans| && BounceEnd(from, spans, k).Some?
    ensures |offsets| == k
  {
    if k == 0 then []
    else
      BounceStays(from, spans, k - 1, k);
      Offsets(from, spans, k - 1) + [BounceOffset(from, spans, k - 1)]
  }

  function SetOffsets(from: nat, sets: seq<Option<nat>>, k: nat): (offsets: seq<nat>)
    requires k <= |sets|
    ensures |offsets| == k
  {
    if k == 0 then [] else SetOffsets(from, sets, k - 1) + [SetOffset(from, sets, k - 1)]
  }

  /** The whole layout, or None when the host cannot address it. */
  function LayoutOf(n: Needs): Option<Layout> {
    var end := BounceEnd(PushStart(n) + n.push, Spans(n), |Spans(n)|);
    if end.None? then None
    else Some(Layout(Up16(n.state), SetOffsets(TablesStart(n), n.sets, |n.sets|), PushStart(n),
                     Offsets(PushStart(n) + n.push, Spans(n), |Spans(n)|), end.value))
  }

  // ----- the loops

  method PlanSets(from: nat, sets: seq<Option<nat>>) returns (offsets: seq<nat>, bytes: nat)
    ensures offsets == SetOffsets(from, sets, |sets|) && bytes == SetsEnd(from, sets, |sets|)
  {
    offsets, bytes := [], from;
    var s := 0;
    while s < |sets|
      invariant s <= |sets| && offsets == SetOffsets(from, sets, s) && bytes == SetsEnd(from, sets, s)
    {
      if sets[s].Some? {
        bytes := bytes + 15 - (bytes + 15) % 16;
        offsets := offsets + [bytes];
        bytes := bytes + sets[s].value;
      } else {
        offsets := offsets + [0];
      }
      s := s + 1;
    }
  }

  method PlanBounces(from: nat, spans: seq<Span>) returns (ok: bool, offsets: seq<nat>, bytes: nat)
    ensures ok == BounceEnd(from, spans, |spans|).Some?
    ensures ok ==> bytes == BounceEnd(from, spans, |spans|).value && offsets == Offsets(from, spans, |spans|)
  {
    hide Up4;
    ok, offsets, bytes := true, [], from;
    var i := 0;
    while i < |spans|
      invariant i <= |spans| && BounceEnd(from, spans, i) == Some(bytes) && offsets == Offsets(from, spans, i)
    {
      var offset := 0;
      if spans[i].address != 0 && spans[i].address % 4 != 0 {
        if bytes > SIZE_MAX - 3 {
          LaterFails(from, spans, i + 1, |spans|);
          return false, offsets, bytes;
        }
        offset := Up4(bytes);
        if spans[i].bytes > SIZE_MAX - offset {
          LaterFails(from, spans, i + 1, |spans|);
          return false, offsets, bytes;
        }
        bytes := offset + spans[i].bytes;
      }
      offsets, i := offsets + [offset], i + 1;
    }
  }

  lemma {:induction false} LaterFails(from: nat, spans: seq<Span>, j: nat, k: nat)
    requires j <= k <= |spans| && BounceEnd(from, spans, j).None?
    ensures BounceEnd(from, spans, k).None?
    decreases k
  {
    if j < k { LaterFails(from, spans, j, k - 1); }
  }

  method PlanLayout(n: Needs) returns (layout: Option<Layout>)
    ensures layout == LayoutOf(n)
  {
    hide Up16, SetsEnd, SetOffsets, BounceEnd, Offsets;
    var table := Up16(n.state);
    var bytes := n.state;
    if n.vertices.Some? {
      bytes := table + 16 * |n.vertices.value|;
    }
    var sets, push := PlanSets(bytes, n.sets);
    var ok, bounce, end := PlanBounces(push + n.push, Spans(n));
    if !ok {
      return None;
    }
    layout := Some(Layout(table, sets, push, bounce, end));
  }

  // ----- the regions

  /** A stretch of the allocation and the alignment it needs. */
  datatype Region = Region(offset: nat, bytes: nat, alignment: nat)

  predicate Aligned(r: Region) { r.alignment > 0 && r.offset % r.alignment == 0 }

  /** Aligned regions one behind another, up to `high`. */
  predicate Packed(rs: seq<Region>, high: nat) {
    rs == [] || (
      var last := rs[|rs| - 1];
      Aligned(last) && last.offset + last.bytes <= high && Packed(rs[..|rs| - 1], last.offset))
  }

  function SetRegions(from: nat, sets: seq<Option<nat>>, k: nat): seq<Region>
    requires k <= |sets|
  {
    if k == 0 then []
    else if sets[k - 1].None? then SetRegions(from, sets, k - 1)
    else SetRegions(from, sets, k - 1) + [Region(SetOffset(from, sets, k - 1), sets[k - 1].value, 16)]
  }

  function BounceRegions(from: nat, spans: seq<Span>, k: nat): seq<Region>
    requires k <= |spans| && BounceEnd(from, spans, k).Some?
  {
    if k == 0 then []
    else
      BounceStays(from, spans, k - 1, k);
      BounceRegions(from, spans, k - 1) +
      if Unaligned(spans[k - 1]) then [Region(BounceOffset(from, spans, k - 1), spans[k - 1].bytes, 4)] else []
  }

  /** Every region of a layout. */
  function Regions(n: Needs): seq<Region>
    requires LayoutOf(n).Some?
  {
    Heads(n)
    + SetRegions(TablesStart(n), n.sets, |n.sets|)
    + [Region(PushStart(n), n.push, 4)]
    + BounceRegions(PushStart(n) + n.push, Spans(n), |Spans(n)|)
  }

  lemma PackedMore(rs: seq<Region>, low: nat, r: Region)
    requires Packed(rs, low) && low <= r.offset && Aligned(r)
    ensures Packed(rs + [r], r.offset + r.bytes)
  {
    assert (rs + [r])[..|rs|] == rs;
  }

  lemma PackedHigher(rs: seq<Region>, low: nat, high: nat)
    requires Packed(rs, low) && low <= high
    ensures Packed(rs, high)
  {
  }

  lemma {:induction false} PackedSets(rs: seq<Region>, from: nat, sets: seq<Option<nat>>, k: nat)
    requires Packed(rs, from) && k <= |sets|
    ensures Packed(rs + SetRegions(from, sets, k), SetsEnd(from, sets, k))
  {
    hide Up16, Packed;
    if k == 0 {
      assert rs + [] == rs;
    } else {
      PackedSets(rs, from, sets, k - 1);
      if sets[k - 1].Some? {
        var r := Region(SetOffset(from, sets, k - 1), sets[k - 1].value, 16);
        PackedHigher(rs + SetRegions(from, sets, k - 1), SetsEnd(from, sets, k - 1), r.offset);
        PackedMore(rs + SetRegions(from, sets, k - 1), r.offset, r);
        assert rs + SetRegions(from, sets, k) == rs + SetRegions(from, sets, k - 1) + [r];
      } else {
        assert rs + SetRegions(from, sets, k) == rs + SetRegions(from, sets, k - 1);
      }
    }
  }

  lemma {:induction false} PackedBounces(rs: seq<Region>, from: nat, spans: seq<Span>, k: nat)
    requires Packed(rs, from) && k <= |spans| && BounceEnd(from, spans, k).Some?
    ensures Packed(rs + BounceRegions(from, spans, k), BounceEnd(from, spans, k).value)
  {
    hide Up4, Packed;
    if k == 0 {
      assert rs + [] == rs;
    } else {
      BounceStays(from, spans, k - 1, k);
      PackedBounces(rs, from, spans, k - 1);
      if Unaligned(spans[k - 1]) {
        var r := Region(BounceOffset(from, spans, k - 1), spans[k - 1].bytes, 4);
        PackedMore(rs + BounceRegions(from, spans, k - 1), BounceEnd(from, spans, k - 1).value, r);
        assert rs + BounceRegions(from, spans, k) == rs + BounceRegions(from, spans, k - 1) + [r];
      } else {
        assert rs + BounceRegions(from, spans, k) == rs + BounceRegions(from, spans, k - 1);
      }
    }
  }

  lemma {:induction false} SetsEndAligned(from: nat, sets: seq<Option<nat>>, k: nat)
    requires k <= |sets| && from % 8 == 0 && forall s | 0 <= s < |sets| && sets[s].Some? :: sets[s].value % 16 == 0
    ensures SetsEnd(from, sets, k) % 8 == 0
  {
    hide Up16;
    if k > 0 {
      SetsEndAligned(from, sets, k - 1);
      if sets[k - 1].Some? { EightFromSixteen(Up16(SetsEnd(from, sets, k - 1)), sets[k - 1].value); }
    }
  }

  lemma SixteenTimes(n: nat)
    ensures 16 * n % 16 == 0
  {
  }

  lemma EightFromSixteen(a: nat, b: nat)
    requires a % 16 == 0 && b % 16 == 0
    ensures (a + b) % 8 == 0
  {
  }

  /** The state block and the vertex table. */
  function Heads(n: Needs): seq<Region> {
    [Region(0, n.state, 8)] + if n.vertices.Some? then [Region(Up16(n.state), 16 * |n.vertices.value|, 16)] else []
  }

  lemma HeadsArePacked(n: Needs)
    ensures Packed(Heads(n), TablesStart(n))
  {
    hide Up16;
    var state := Region(0, n.state, 8);
    PackedOne(state);
    if n.vertices.Some? {
      PackedHigher([state], n.state, Up16(n.state));
      PackedMore([state], n.state, Region(Up16(n.state), 16 * |n.vertices.value|, 16));
    } else {
      assert Heads(n) == [state];
    }
  }

  lemma PushIsAligned(n: Needs)
    requires ValidNeeds(n)
    ensures Aligned(Region(PushStart(n), n.push, 4))
  {
    hide SetsEnd, Up16;
    if n.vertices.Some? {
      SixteenTimes(|n.vertices.value|);
      EightFromSixteen(Up16(n.state), 16 * |n.vertices.value|);
    }
    SetsEndAligned(TablesStart(n), n.sets, |n.sets|);
  }

  /** All regions are aligned, one behind another, and end where the allocation
      does. */
  lemma RegionsArePacked(n: Needs)
    requires ValidNeeds(n) && LayoutOf(n).Some?
    ensures Packed(Regions(n), LayoutOf(n).value.bytes)
  {
    hide Heads, SetRegions, BounceEnd, BounceRegions, Packed, Aligned, ValidNeeds, PushStart, TablesStart;
    var push := Region(PushStart(n), n.push, 4);
    HeadsArePacked(n);
    PackedSets(Heads(n), TablesStart(n), n.sets, |n.sets|);
    PushIsAligned(n);
    var rs := Heads(n) + SetRegions(TablesStart(n), n.sets, |n.sets|);
    PushFollows(n);
    PackedMore(rs, PushStart(n), push);
    PackedBounces(rs + [push], PushStart(n) + n.push, Spans(n), |Spans(n)|);
  }

  lemma PushFollows(n: Needs)
    ensures PushStart(n) == SetsEnd(TablesStart(n), n.sets, |n.sets|)
  {
  }

  lemma PackedOne(r: Region)
    requires r.offset == 0 && Aligned(r)
    ensures Packed([r], r.bytes)
  {
    assert [r][..0] == [];
  }

  lemma {:induction false} PackedInside(rs: seq<Region>, high: nat, i: nat)
    requires Packed(rs, high) && i < |rs|
    ensures rs[i].offset + rs[i].bytes <= high && Aligned(rs[i])
    decreases |rs|
  {
    if i < |rs| - 1 { PackedInside(rs[..|rs| - 1], rs[|rs| - 1].offset, i); }
  }

  lemma {:induction false} PackedApart(rs: seq<Region>, high: nat, i: nat, j: nat)
    requires Packed(rs, high) && i < j < |rs|
    ensures rs[i].offset + rs[i].bytes <= rs[j].offset
    decreases |rs|
  {
    if j < |rs| - 1 {
      PackedApart(rs[..|rs| - 1], rs[|rs| - 1].offset, i, j);
    } else {
      PackedInside(rs[..|rs| - 1], rs[|rs| - 1].offset, i);
    }
  }

  /** For every mix of tables, sets, push constants and unaligned spans: no two
      regions share a byte, and each is aligned and inside the allocation. */
  lemma LayoutIsSound(n: Needs, i: nat, j: nat)
    requires ValidNeeds(n) && LayoutOf(n).Some? && i < j < |Regions(n)|
    ensures var a, b := Regions(n)[i], Regions(n)[j];
      && a.offset + a.bytes <= b.offset && b.offset + b.bytes <= LayoutOf(n).value.bytes
      && Aligned(a) && Aligned(b)
  {
    hide Regions, LayoutOf, Packed;
    RegionsArePacked(n);
    PackedApart(Regions(n), LayoutOf(n).value.bytes, i, j);
    PackedInside(Regions(n), LayoutOf(n).value.bytes, i);
    PackedInside(Regions(n), LayoutOf(n).value.bytes, j);
  }

  // ----- the regions are where the layout says

  lemma {:induction false} SetOffsetsAre(from: nat, sets: seq<Option<nat>>, k: nat, s: nat)
    requires s < k <= |sets|
    ensures SetOffsets(from, sets, k)[s] == SetOffset(from, sets, s)
    ensures sets[s].Some? ==> Region(SetOffset(from, sets, s), sets[s].value, 16) in SetRegions(from, sets, k)
    decreases k
  {
    if s < k - 1 { SetOffsetsAre(from, sets, k - 1, s); }
  }

  lemma {:induction false} BounceOffsetsAre(from: nat, spans: seq<Span>, k: nat, i: nat)
    requires i < k <= |spans| && BounceEnd(from, spans, k).Some?
    ensures BounceEnd(from, spans, i).Some? && Offsets(from, spans, k)[i] == BounceOffset(from, spans, i)
    ensures Unaligned(spans[i]) ==>
      Region(BounceOffset(from, spans, i), spans[i].bytes, 4) in BounceRegions(from, spans, k)
    decreases k
  {
    hide Up4;
    BounceStays(from, spans, i, k);
    BounceStays(from, spans, k - 1, k);
    if i < k - 1 { BounceOffsetsAre(from, spans, k - 1, i); }
  }

  /** Each offset of the layout is the start of the region it is meant for. */
  lemma LayoutNamesRegions(n: Needs)
    requires LayoutOf(n).Some?
    ensures var layout, rs := LayoutOf(n).value, Regions(n);
      && Region(0, n.state, 8) in rs && Region(layout.push, n.push, 4) in rs
      && |layout.sets| == |n.sets| && |layout.bounce| == |Spans(n)|
      && (n.vertices.Some? ==> Region(layout.table, 16 * |n.vertices.value|, 16) in rs)
      && (forall s | 0 <= s < |n.sets| && n.sets[s].Some? :: Region(layout.sets[s], n.sets[s].value, 16) in rs)
      && (forall i | 0 <= i < |Spans(n)| && Unaligned(Spans(n)[i]) ::
            Region(layout.bounce[i], Spans(n)[i].bytes, 4) in rs)
  {
    hide SetRegions, BounceRegions, SetOffsets, Offsets, PushStart, TablesStart, Up16;
    forall s | 0 <= s < |n.sets| && n.sets[s].Some?
      ensures Region(LayoutOf(n).value.sets[s], n.sets[s].value, 16) in Regions(n)
    {
      SetOffsetsAre(TablesStart(n), n.sets, |n.sets|, s);
    }
    forall i | 0 <= i < |Spans(n)| && Unaligned(Spans(n)[i])
      ensures Region(LayoutOf(n).value.bounce[i], Spans(n)[i].bytes, 4) in Regions(n)
    {
      BounceOffsetsAre(PushStart(n) + n.push, Spans(n), |Spans(n)|, i);
    }
  }

  // ----- the parts of a draw, by name

  /** The parts that have a place of their own in the allocation. */
  datatype Part = State | Table | Set(s: nat) | Push | Copy(i: nat)

  predicate HasPart(n: Needs, p: Part) {
    match p
    case State => true
    case Table => n.vertices.Some?
    case Set(s) => s < |n.sets| && n.sets[s].Some?
    case Push => true
    case Copy(i) => i < |Spans(n)| && Unaligned(Spans(n)[i])
  }

  /** Where the layout puts a part, and how long it is. */
  function PartOffset(n: Needs, layout: Layout, p: Part): nat
    requires HasPart(n, p) && |layout.sets| == |n.sets| && |layout.bounce| == |Spans(n)|
  {
    match p
    case State => 0
    case Table => layout.table
    case Set(s) => layout.sets[s]
    case Push => layout.push
    case Copy(i) => layout.bounce[i]
  }

  function PartBytes(n: Needs, p: Part): nat
    requires HasPart(n, p)
  {
    match p
    case State => n.state
    case Table => 16 * |n.vertices.value|
    case Set(s) => n.sets[s].value
    case Push => n.push
    case Copy(i) => Spans(n)[i].bytes
  }

  /** Parts in the order they are laid out. */
  predicate Precedes(p: Part, q: Part) {
    match p
    case State => q != State
    case Table => q.Set? || q.Push? || q.Copy?
    case Set(s) => (q.Set? && s < q.s) || q.Push? || q.Copy?
    case Push => q.Copy?
    case Copy(i) => q.Copy? && i < q.i
  }

  /** The stretch of the allocation a part is laid out in. */
  function Low(n: Needs, p: Part): nat
    requires LayoutOf(n).Some? && HasPart(n, p)
  {
    match p
    case State => 0
    case Table => n.state
    case Set(s) => SetsEnd(TablesStart(n), n.sets, s)
    case Push => PushStart(n)
    case Copy(i) => CopiesEnd(n, i)
  }

  function High(n: Needs, p: Part): nat
    requires LayoutOf(n).Some? && HasPart(n, p)
  {
    match p
    case State => n.state
    case Table => TablesStart(n)
    case Set(s) => SetsEnd(TablesStart(n), n.sets, s + 1)
    case Push => PushStart(n) + n.push
    case Copy(i) => CopiesEnd(n, i + 1)
  }

  function CopiesEnd(n: Needs, k: nat): nat
    requires LayoutOf(n).Some? && k <= |Spans(n)|
  {
    BounceStays(PushStart(n) + n.push, Spans(n), k, |Spans(n)|);
    BounceEnd(PushStart(n) + n.push, Spans(n), k).value
  }

  lemma {:induction false} SetsEndGrows(from: nat, sets: seq<Option<nat>>, j: nat, k: nat)
    requires j <= k <= |sets|
    ensures from <= SetsEnd(from, sets, j) <= SetsEnd(from, sets, k)
    decreases k
  {
    hide Up16;
    if j < k {
      SetsEndGrows(from, sets, j, k - 1);
    } else if k > 0 {
      SetsEndGrows(from, sets, k - 1, k - 1);
    }
  }

  lemma {:induction false} CopiesEndGrows(from: nat, spans: seq<Span>, j: nat, k: nat)
    requires j <= k <= |spans| && BounceEnd(from, spans, k).Some?
    ensures BounceEnd(from, spans, j).Some?
    ensures from <= BounceEnd(from, spans, j).value <= BounceEnd(from, spans, k).value
    decreases k
  {
    hide Up4;
    if j < k {
      CopiesEndGrows(from, spans, j, k - 1);
    } else if k > 0 {
      CopiesEndGrows(from, spans, k - 1, k - 1);
    }
  }

  lemma PartInItsStretch(n: Needs, p: Part)
    requires LayoutOf(n).Some? && HasPart(n, p)
    ensures var layout := LayoutOf(n).value;
      && |layout.sets| == |n.sets| && |layout.bounce| == |Spans(n)|
      && Low(n, p) <= PartOffset(n, layout, p)
      && PartOffset(n, layout, p) + PartBytes(n, p) <= High(n, p) <= layout.bytes
  {
    hide SetOffsets, Offsets, Up16, Up4;
    var bottom, spans := PushStart(n) + n.push, Spans(n);
    CopiesEndGrows(bottom, spans, 0, |spans|);
    SetsEndGrows(TablesStart(n), n.sets, 0, |n.sets|);
    match p
    case Set(s) =>
      SetOffsetsAre(TablesStart(n), n.sets, |n.sets|, s);
      SetsEndGrows(TablesStart(n), n.sets, s + 1, |n.sets|);
    case Copy(i) =>
      BounceOffsetsAre(bottom, spans, |spans|, i);
      CopiesEndGrows(bottom, spans, i + 1, |spans|);
    case _ =>
  }

  function PartAlignment(p: Part): nat {
    match p
    case State => 8
    case Table => 16
    case Set(_) => 16
    case Push => 1
    case Copy(_) => 4
  }

  /** No part starts later than its alignment asks, and the next stretch begins where
      the part ends: padding is all that is wasted. */
  lemma PartsAreTight(n: Needs, p: Part)
    requires LayoutOf(n).Some? && HasPart(n, p)
    ensures var layout := LayoutOf(n).value;
      && |layout.sets| == |n.sets| && |layout.bounce| == |Spans(n)|
      && PartOffset(n, layout, p) % PartAlignment(p) == 0
      && PartOffset(n, layout, p) < Low(n, p) + PartAlignment(p)
      && PartOffset(n, layout, p) + PartBytes(n, p) == High(n, p)
    ensures LayoutOf(n).value.bytes == CopiesEnd(n, |Spans(n)|)
  {
    hide SetOffsets, Offsets, Up16, Up4;
    var bottom, spans := PushStart(n) + n.push, Spans(n);
    match p
    case Set(s) => SetOffsetsAre(TablesStart(n), n.sets, |n.sets|, s);
    case Copy(i) =>
      BounceOffsetsAre(bottom, spans, |spans|, i);
      BounceStays(bottom, spans, i + 1, |spans|);
    case _ =>
  }

  lemma StretchesInOrder(n: Needs, p: Part, q: Part)
    requires LayoutOf(n).Some? && HasPart(n, p) && HasPart(n, q) && Precedes(p, q)
    ensures High(n, p) <= Low(n, q)
  {
    hide SetOffsets, Offsets, Up16, Up4, SetsEnd, BounceEnd;
    var bottom, spans := PushStart(n) + n.push, Spans(n);
    if q.Copy? {
      BounceStays(bottom, spans, q.i, |spans|);
      CopiesEndGrows(bottom, spans, 0, q.i);
      if p.Copy? { CopiesEndGrows(bottom, spans, p.i + 1, q.i); }
      NoCopies(bottom, spans);
    }
    if p.Set? {
      SetsEndGrows(TablesStart(n), n.sets, p.s + 1, if q.Set? then q.s else |n.sets|);
    } else {
      SetsEndGrows(TablesStart(n), n.sets, if q.Set? then q.s else 0, |n.sets|);
    }
    TablesBehindState(n);
  }

  lemma NoCopies(from: nat, spans: seq<Span>)
    ensures BounceEnd(from, spans, 0) == Some(from)
  {
  }

  lemma TablesBehindState(n: Needs)
    ensures n.state <= TablesStart(n)
  {
  }

  /** Any two parts of a draw share no byte and lie inside the allocation. */
  lemma PartsAreApart(n: Needs, p: Part, q: Part)
    requires LayoutOf(n).Some? && HasPart(n, p) && HasPart(n, q) && p != q
    ensures var layout := LayoutOf(n).value;
      && |layout.sets| == |n.sets| && |layout.bounce| == |Spans(n)|
      && PartOffset(n, layout, p) + PartBytes(n, p) <= layout.bytes
      && (PartOffset(n, layout, p) + PartBytes(n, p) <= PartOffset(n, layout, q)
          || PartOffset(n, layout, q) + PartBytes(n, q) <= PartOffset(n, layout, p))
  {
    hide LayoutOf, HasPart, PartOffset, PartBytes, Low, High;
    PartInItsStretch(n, p);
    PartInItsStretch(n, q);
    if Precedes(p, q) {
      StretchesInOrder(n, p, q);
    } else {
      StretchesInOrder(n, q, p);
    }
  }
}
