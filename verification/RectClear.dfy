/** The rectangle clear of native/color_rect_clear.h: a dry pass that only counts,
    then a pass that emits the same fills. */
module RectClear {
  import opened Words
  import opened ColorDetile
  import opened DmaFill
  import opened RectPlan

  // ----- the packets of a list of ranges

  function PlanWords(base: nat, rs: seq<Range>, word: Word): seq<Word> {
    if rs == [] then []
    else PlanWords(base, rs[..|rs| - 1], word) + FillWords(base + rs[|rs| - 1].offset, rs[|rs| - 1].bytes, word)
  }

  /** Seven words for every chunk of every range. */
  function PlanLength(rs: seq<Range>): nat {
    if rs == [] then 0 else PlanLength(rs[..|rs| - 1]) + PACKET_WORDS * Packets(rs[|rs| - 1].bytes)
  }

  lemma {:induction false} LengthOfWords(base: nat, rs: seq<Range>, word: Word)
    ensures |PlanWords(base, rs, word)| == PlanLength(rs)
    decreases |rs|
  {
    if rs != [] {
      LengthOfWords(base, rs[..|rs| - 1], word);
      FillLength(base + rs[|rs| - 1].offset, rs[|rs| - 1].bytes, word);
    }
  }

  lemma WordsSnoc(base: nat, rs: seq<Range>, r: Range, word: Word)
    ensures PlanWords(base, rs + [r], word) == PlanWords(base, rs, word) + FillWords(base + r.offset, r.bytes, word)
    ensures PlanLength(rs + [r]) == PlanLength(rs) + PACKET_WORDS * Packets(r.bytes)
  {
    assert (rs + [r])[..|rs|] == rs;
  }

  // ----- one range

  /** What a caller of the fill fixes once: where the target is and how much room
      the packets have. */
  datatype Job = Job(base: nat, allocation: nat, capacity: nat, word: Word, emit: bool)

  predicate ValidJob(j: Job) {
    0 < j.base < ADDRESS_LIMIT && j.base % 4 == 0 && j.allocation <= ADDRESS_LIMIT - j.base
  }

  predicate RangeRefused(j: Job, used: nat, offset: nat, bytes: nat) {
    || bytes == 0 || bytes % 4 != 0 || offset % 4 != 0 || offset > j.allocation || bytes > j.allocation - offset
    || used > j.capacity || used + PACKET_WORDS * Packets(bytes) > j.capacity
  }

  /** The clear so far: whether it goes on, the words counted, the output. */
  datatype State = State(ok: bool, used: nat, out: seq<Word>)

  /** One range: refused, or counted and, by the pass that emits, written. */
  function Step(j: Job, s: State, r: Range): (after: State)
    requires j.capacity <= |s.out|
    ensures |after.out| == |s.out|
  {
    if RangeRefused(j, s.used, r.offset, r.bytes) then State(false, s.used, s.out)
    else
      var ws := FillWords(j.base + r.offset, r.bytes, j.word);
      FillLength(j.base + r.offset, r.bytes, j.word);
      State(true, s.used + PACKET_WORDS * Packets(r.bytes), if j.emit then Overwrite(s.out, s.used, ws) else s.out)
  }

  /** A list of ranges, up to the first that is refused. */
  function Run(j: Job, s: State, rs: seq<Range>): (after: State)
    requires j.capacity <= |s.out|
    ensures |after.out| == |s.out|
    decreases |rs|
  {
    if rs == [] || !s.ok then s else Run(j, Step(j, s, rs[0]), rs[1..])
  }

  lemma RunFirst(j: Job, s: State, r: Range, rest: seq<Range>)
    requires j.capacity <= |s.out| && s.ok
    ensures Run(j, s, [r] + rest) == Run(j, Step(j, s, r), rest)
  {
    assert ([r] + rest)[1..] == rest;
  }

  lemma RunEnded(j: Job, s: State, rs: seq<Range>)
    requires j.capacity <= |s.out| && (!s.ok || rs == [])
    ensures Run(j, s, rs) == s
  {
  }

  lemma {:induction false} RunAppend(j: Job, s: State, rs: seq<Range>, ts: seq<Range>)
    requires j.capacity <= |s.out|
    ensures Run(j, s, rs + ts) == Run(j, Run(j, s, rs), ts)
    decreases |rs|
  {
    if rs == [] {
      assert rs + ts == ts;
    } else if s.ok {
      RunAppend(j, Step(j, s, rs[0]), rs[1..], ts);
      assert (rs + ts)[1..] == rs[1..] + ts;
    }
  }

  method CountPackets(bytes: nat) returns (packets: nat)
    ensures packets == Packets(bytes)
  {
    packets := bytes / CHUNK + if bytes % CHUNK != 0 then 1 else 0;
    PacketsIsCeiling(bytes);
  }

  lemma RoomByDivision(packets: nat, room: nat)
    ensures packets > room / PACKET_WORDS <==> PACKET_WORDS * packets > room
  {
  }

  method FillRange(j: Job, out: array<Word>, used: nat, offset: nat, bytes: nat) returns (ok: bool, used': nat)
    requires ValidJob(j) && j.capacity <= out.Length
    modifies out
    ensures State(ok, used', out[..]) == Step(j, State(true, used, old(out[..])), Range(offset, bytes))
  {
    hide FillWords, Overwrite;
    var packets := CountPackets(bytes);
    if bytes == 0 || bytes % 4 != 0 || offset % 4 != 0 || offset > j.allocation || bytes > j.allocation - offset
       || used > j.capacity {
      return false, used;
    }
    RoomByDivision(packets, j.capacity - used);
    if packets > (j.capacity - used) / PACKET_WORDS {
      return false, used;
    }
    var words := packets * PACKET_WORDS;
    if j.emit {
      var n := WriteFill(out, used, j.capacity - used, j.base + offset, bytes, j.word);
      if n != words {
        return false, used;
      }
    }
    return true, used + words;
  }

  // ----- the loops

  /** A clear of the four-byte surface the address equation lays out. */
  ghost predicate OnRx(c: Clear) {
    && ValidClear(c)
    && (forall x: nat, y: nat {:trigger OnSurface(c, x, y)} ::
          OnSurface(c, x, y) ==> Offset(x, y, c.width) == Some(4 * c.at(x, y)))
  }

  /** The address equation never fails inside the surface. */
  method SurfaceOffset(c: Clear, x: nat, y: nat) returns (offset: nat)
    requires OnRx(c) && x < c.width && y < c.height
    ensures offset == 4 * c.at(x, y)
  {
    assert OnSurface(c, x, y);
    var found := TexelOffset(x, y, c.width);
    offset := found.value;
  }

  method FillLines(j: Job, out: array<Word>, used: nat, c: Clear, base: nat, left: nat, right: nat, top: nat,
      bottom: nat)
    returns (ok: bool, used': nat)
    requires ValidJob(j) && j.capacity <= out.Length
    requires OnRx(c) && left < right <= c.width && bottom <= c.height
    modifies out
    ensures var ranges := Lines(c, base, left, right, top, bottom);
      State(ok, used', out[..]) == Run(j, State(true, used, old(out[..])), ranges)
  {
    var y: nat := top;
    ok, used' := true, used;
    while y < bottom
      invariant top <= y && ok
      invariant Run(j, State(ok, used', out[..]), Lines(c, base, left, right, y, bottom))
        == Run(j, State(true, used, old(out[..])), Lines(c, base, left, right, top, bottom))
      decreases bottom - y
    {
      RunFirst(j, State(ok, used', out[..]), Line(c, base, left, right, y), Lines(c, base, left, right, y + 1, bottom));
      var offset := SurfaceOffset(c, left, y);
      ok, used' := FillRange(j, out, used', base + offset, (right - left) * 4);
      if !ok {
        return;
      }
      y := y + 1;
    }
  }

  /** One microtile the rectangle meets. */
  method FillTile(j: Job, out: array<Word>, used: nat, c: Clear, base: nat, col: nat, row: nat)
    returns (ok: bool, used': nat)
    requires ValidJob(j) && j.capacity <= out.Length
    requires OnRx(c) && col < c.x1 && c.x0 < col + 4 && row < c.y1 && c.y0 < row + 8
    modifies out
    ensures State(ok, used', out[..]) == Run(j, State(true, used, old(out[..])), Tile(c, base, col, row))
  {
    var left, right := if col < c.x0 then c.x0 else col, if col + 4 > c.x1 then c.x1 else col + 4;
    var top, bottom := if row < c.y0 then c.y0 else row, if row + 8 > c.y1 then c.y1 else row + 8;
    TileIs(c, base, col, row, left, right, top, bottom);
    hide Tile, Lines, Step;
    if left == col && right == col + 4 && top == row && bottom == row + 8 {
      var offset := SurfaceOffset(c, col, row);
      RunFirst(j, State(true, used, out[..]), Range(base + offset, 128), []);
      ok, used' := FillRange(j, out, used, base + offset, 128);
    } else {
      ok, used' := FillLines(j, out, used, c, base, left, right, top, bottom);
    }
  }

  lemma TileIs(c: Clear, base: nat, col: nat, row: nat, left: nat, right: nat, top: nat, bottom: nat)
    requires left == Max(col, c.x0) && right == Min(col + 4, c.x1) && left <= right
    requires top == Max(row, c.y0) && bottom == Min(row + 8, c.y1)
    ensures Tile(c, base, col, row) ==
      if left == col && right == col + 4 && top == row && bottom == row + 8 then [Range(base + 4 * c.at(col, row), 128)]
      else Lines(c, base, left, right, top, bottom)
  {
  }

  method FillTileRow(j: Job, out: array<Word>, used: nat, c: Clear, base: nat, row: nat) returns (ok: bool, used': nat)
    requires ValidJob(j) && j.capacity <= out.Length
    requires OnRx(c) && row < c.y1 && c.y0 < row + 8 && c.width < U32 - 4
    modifies out
    ensures State(ok, used', out[..]) == Run(j, State(true, used, old(out[..])), TileRow(c, base, Floor4(c.x0), row))
  {
    hide Run, Step;
    var col: nat := Floor4(c.x0);
    ok, used' := true, used;
    while col < c.x1
      invariant c.x0 < col + 4 && col < U32 && ok
      invariant Run(j, State(ok, used', out[..]), TileRow(c, base, col, row))
        == Run(j, State(true, used, old(out[..])), TileRow(c, base, Floor4(c.x0), row))
      decreases c.x1 - col
    {
      RunAppend(j, State(ok, used', out[..]), Tile(c, base, col, row), TileRow(c, base, col + 4, row));
      ok, used' := FillTile(j, out, used', c, base, col, row);
      if !ok {
        RunEnded(j, State(ok, used', out[..]), TileRow(c, base, col + 4, row));
        return;
      }
      col := col + 4;
    }
    RunEnded(j, State(ok, used', out[..]), TileRow(c, base, col, row));
  }

  method FillTileRows(j: Job, out: array<Word>, used: nat, c: Clear, base: nat) returns (ok: bool, used': nat)
    requires ValidJob(j) && j.capacity <= out.Length
    requires OnRx(c) && c.width < U32 - 4 && c.height < U32 - 8
    modifies out
    ensures State(ok, used', out[..]) == Run(j, State(true, used, old(out[..])), TileRows(c, base, Floor8(c.y0)))
  {
    hide Run, Step;
    var row: nat := Floor8(c.y0);
    ok, used' := true, used;
    while row < c.y1
      invariant c.y0 < row + 8 && row < U32 && ok
      invariant Run(j, State(ok, used', out[..]), TileRows(c, base, row))
        == Run(j, State(true, used, old(out[..])), TileRows(c, base, Floor8(c.y0)))
      decreases c.y1 - row
    {
      RunAppend(j, State(ok, used', out[..]), TileRow(c, base, Floor4(c.x0), row), TileRows(c, base, row + 8));
      ok, used' := FillTileRow(j, out, used', c, base, row);
      if !ok {
        RunEnded(j, State(ok, used', out[..]), TileRows(c, base, row + 8));
        return;
      }
      row := row + 8;
    }
    RunEnded(j, State(ok, used', out[..]), TileRows(c, base, row));
  }

  /** One layer. */
  method FillLayer(j: Job, out: array<Word>, used: nat, c: Clear, layer: nat) returns (ok: bool, used': nat)
    requires ValidJob(j) && j.capacity <= out.Length
    requires OnRx(c) && c.width < U32 - 4 && c.height < U32 - 8
    modifies out
    ensures State(ok, used', out[..]) == Run(j, State(true, used, old(out[..])), Layer(c, layer))
  {
    BaseIsProduct(c, layer);
    if !c.chosen(layer) {
      ok, used' := true, used;
    } else if c.x0 == 0 && c.y0 == 0 && c.x1 == c.width && c.y1 == c.height {
      RunFirst(j, State(true, used, out[..]), Range(layer * c.stride, c.stride), []);
      ok, used' := FillRange(j, out, used, layer * c.stride, c.stride);
    } else {
      ok, used' := FillTileRows(j, out, used, c, layer * c.stride);
    }
  }

  /** One pass over all layers. */
  method Pass(j: Job, out: array<Word>, c: Clear) returns (ok: bool, used: nat)
    requires ValidJob(j) && j.capacity <= out.Length
    requires OnRx(c) && c.width < U32 - 4 && c.height < U32 - 8
    modifies out
    ensures State(ok, used, out[..]) == Run(j, State(true, 0, old(out[..])), Plan(c, 0))
  {
    var layer: nat := 0;
    ok, used := true, 0;
    while layer < c.layers
      invariant layer <= c.layers && ok
      invariant Run(j, State(ok, used, out[..]), Plan(c, layer)) == Run(j, State(true, 0, old(out[..])), Plan(c, 0))
    {
      RunAppend(j, State(ok, used, out[..]), Layer(c, layer), Plan(c, layer + 1));
      ok, used := FillLayer(j, out, used, c, layer);
      if !ok {
        return;
      }
      layer := layer + 1;
    }
  }
}
