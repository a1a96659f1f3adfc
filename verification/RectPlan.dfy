/** Which byte ranges a rectangle clear fills (native/color_rect_clear.h), and the
    proof that they are exactly the rectangle's texels, each of them once. */
module RectPlan {
  import opened ColorDetile

  datatype Range = Range(offset: nat, bytes: nat)

  /** A clear whose arguments passed their checks: texels [x0, x1) x [y0, y1) of
      the chosen layers; texel (x, y) lies at dword at(x, y) of its
      layer. */
  datatype Clear = Clear(stride: nat, width: nat, height: nat, layers: nat, chosen: nat -> bool,
    x0: nat, y0: nat, x1: nat, y1: nat, at: (nat, nat) -> nat)

  predicate ValidClear(c: Clear) {
    && c.x0 < c.x1 <= c.width && c.y0 < c.y1 <= c.height
    && c.stride > 0 && c.stride % 4 == 0
  }

  // ----- what the address map must be like

  /** Different texels lie at different dwords. */
  ghost predicate Injective(c: Clear) {
    forall x: nat, y: nat, x': nat, y': nat | x < c.width && x' < c.width && c.at(x, y) == c.at(x', y') ::
      x == x' && y == y'
  }

  predicate SameRow(left: nat, x: nat) { left <= x && left / 4 == x / 4 }

  predicate FirstOf(col: nat, row: nat, x: nat, y: nat) {
    col % 4 == 0 && row % 8 == 0 && col <= x < col + 4 && row <= y < row + 8
  }

  predicate OnSurface(c: Clear, x: nat, y: nat) { x < c.width && y < c.height }

  /** The texels of a four-texel row follow each other; so do the rows of a 4x8
      microtile; and the microtile of every texel ends inside the layer. */
  ghost predicate GoodMap(c: Clear) {
    && (forall left: nat, x: nat, y: nat {:trigger SameRow(left, x), c.at(x, y)} ::
          SameRow(left, x) ==> c.at(x, y) == c.at(left, y) + (x - left))
    && (forall col: nat, row: nat, x: nat, y: nat {:trigger FirstOf(col, row, x, y)} ::
          FirstOf(col, row, x, y) ==> c.at(x, y) == c.at(col, row) + 4 * (y - row) + (x - col))
    && (forall x: nat, y: nat {:trigger OnSurface(c, x, y)} ::
          OnSurface(c, x, y) ==> 4 * c.at(x, y) + 4 * (4 - x % 4) + 16 * (7 - y % 8) <= c.stride)
  }

  predicate Whole(c: Clear) { c.x0 == 0 && c.y0 == 0 && c.x1 == c.width && c.y1 == c.height }

  /** Where a layer starts: `layer` strides into the allocation. */
  function Base(c: Clear, layer: nat): nat { if layer == 0 then 0 else Base(c, layer - 1) + c.stride }

  lemma {:induction false} BaseIsProduct(c: Clear, layer: nat)
    ensures Base(c, layer) == layer * c.stride
  {
    if layer > 0 { BaseIsProduct(c, layer - 1); }
  }

  /** The microtile column, the microtile row, that a coordinate is in. */
  function Floor4(x: nat): (col: nat)
    ensures col <= x < col + 4 && col % 4 == 0
  {
    if x < 4 then 0 else 4 + Floor4(x - 4)
  }

  function Floor8(y: nat): (row: nat)
    ensures row <= y < row + 8 && row % 8 == 0
  {
    if y < 8 then 0 else 8 + Floor8(y - 8)
  }

  function Max(a: nat, b: nat): nat { if a < b then b else a }
  function Min(a: nat, b: nat): nat { if a > b then b else a }

  // ----- the ranges, loop by loop

  function Line(c: Clear, base: nat, left: nat, right: nat, y: nat): Range
    requires left <= right
  {
    Range(base + 4 * c.at(left, y), 4 * (right - left))
  }

  function Lines(c: Clear, base: nat, left: nat, right: nat, y: nat, bottom: nat): seq<Range>
    requires left <= right
    decreases bottom - y
  {
    if y >= bottom then [] else [Line(c, base, left, right, y)] + Lines(c, base, left, right, y + 1, bottom)
  }

  /** One 4x8 microtile: a single fill if the rectangle covers it, its clipped
      rows otherwise. */
  function Tile(c: Clear, base: nat, col: nat, row: nat): seq<Range> {
    var left, right := Max(col, c.x0), Min(col + 4, c.x1);
    var top, bottom := Max(row, c.y0), Min(row + 8, c.y1);
    if left == col && right == col + 4 && top == row && bottom == row + 8 then
      [Range(base + 4 * c.at(col, row), 128)]
    else if left <= right then Lines(c, base, left, right, top, bottom)
    else []
  }

  function TileRow(c: Clear, base: nat, col: nat, row: nat): seq<Range>
    decreases c.x1 - col
  {
    if col >= c.x1 then [] else Tile(c, base, col, row) + TileRow(c, base, col + 4, row)
  }

  function TileRows(c: Clear, base: nat, row: nat): seq<Range>
    decreases c.y1 - row
  {
    if row >= c.y1 then [] else TileRow(c, base, Floor4(c.x0), row) + TileRows(c, base, row + 8)
  }

  function Layer(c: Clear, layer: nat): seq<Range> {
    if !c.chosen(layer) then []
    else if Whole(c) then [Range(Base(c, layer), c.stride)]
    else TileRows(c, Base(c, layer), Floor8(c.y0))
  }

  function Plan(c: Clear, layer: nat): seq<Range>
    decreases c.layers - layer
  {
    if layer >= c.layers then [] else Layer(c, layer) + Plan(c, layer + 1)
  }

  // ----- counting

  predicate Within(r: Range, a: nat) { r.offset <= a < r.offset + r.bytes }

  /** How many ranges contain byte a. */
  function Hits(rs: seq<Range>, a: nat): nat {
    if rs == [] then 0 else Num(Within(rs[0], a)) + Hits(rs[1..], a)
  }

  lemma {:induction false} HitsAppend(rs: seq<Range>, ts: seq<Range>, a: nat)
    ensures Hits(rs + ts, a) == Hits(rs, a) + Hits(ts, a)
    decreases |rs|
  {
    if rs == [] {
      assert rs + ts == ts;
    } else {
      HitsAppend(rs[1..], ts, a);
      assert (rs + ts)[1..] == rs[1..] + ts;
    }
  }

  /** How many texels of a row, of a box, lie at dword d of their layer. */
  ghost function InRow(c: Clear, xa: nat, xb: nat, y: nat, d: nat): nat
    decreases xb - xa
  {
    if xa >= xb then 0 else Num(c.at(xa, y) == d) + InRow(c, xa + 1, xb, y, d)
  }

  ghost function InBox(c: Clear, xa: nat, xb: nat, ya: nat, yb: nat, d: nat): nat
    decreases yb - ya
  {
    if ya >= yb then 0 else InRow(c, xa, xb, ya, d) + InBox(c, xa, xb, ya + 1, yb, d)
  }

  /** Cutting a box in two cuts its texels in two. */
  lemma {:induction false} SplitRow(c: Clear, xa: nat, xm: nat, xb: nat, y: nat, d: nat)
    requires xa <= xm <= xb
    ensures InRow(c, xa, xb, y, d) == InRow(c, xa, xm, y, d) + InRow(c, xm, xb, y, d)
    decreases xm - xa
  {
    if xa < xm { SplitRow(c, xa + 1, xm, xb, y, d); }
  }

  lemma {:induction false} SplitX(c: Clear, xa: nat, xm: nat, xb: nat, ya: nat, yb: nat, d: nat)
    requires xa <= xm <= xb
    ensures InBox(c, xa, xb, ya, yb, d) == InBox(c, xa, xm, ya, yb, d) + InBox(c, xm, xb, ya, yb, d)
    decreases yb - ya
  {
    if ya < yb {
      SplitRow(c, xa, xm, xb, ya, d);
      SplitX(c, xa, xm, xb, ya + 1, yb, d);
    }
  }

  lemma {:induction false} SplitY(c: Clear, xa: nat, xb: nat, ya: nat, ym: nat, yb: nat, d: nat)
    requires ya <= ym <= yb
    ensures InBox(c, xa, xb, ya, yb, d) == InBox(c, xa, xb, ya, ym, d) + InBox(c, xa, xb, ym, yb, d)
    decreases ym - ya
  {
    if ya < ym { SplitY(c, xa, xb, ya + 1, ym, yb, d); }
  }

  lemma {:induction false} NarrowBox(c: Clear, xa: nat, xb: nat, ya: nat, yb: nat, d: nat)
    requires xa >= xb || ya >= yb
    ensures InBox(c, xa, xb, ya, yb, d) == 0
    decreases yb - ya
  {
    if ya < yb { NarrowBox(c, xa, xb, ya + 1, yb, d); }
  }

  // ----- each loop fills exactly its box

  /** Byte a belongs to dword d of the layer starting at base. */
  predicate At(base: nat, a: nat, d: nat) { base + 4 * d <= a < base + 4 * d + 4 }

  lemma {:induction false} RowIsRun(c: Clear, left: nat, right: nat, y: nat, d: nat)
    requires GoodMap(c) && left <= right && (left < right ==> left / 4 == (right - 1) / 4)
    ensures InRow(c, left, right, y, d) == Num(c.at(left, y) <= d < c.at(left, y) + (right - left))
    decreases right - left
  {
    if left + 1 < right {
      RowIsRun(c, left + 1, right, y, d);
      assert SameRow(left, left + 1);
      assert c.at(left + 1, y) == c.at(left, y) + 1;
    }
  }

  lemma OneRange(r: Range, a: nat)
    ensures Hits([r], a) == Num(Within(r, a))
  {
  }

  lemma LineExact(c: Clear, base: nat, left: nat, right: nat, y: nat, a: nat, d: nat)
    requires GoodMap(c) && left < right && left / 4 == (right - 1) / 4 && At(base, a, d)
    ensures Hits([Line(c, base, left, right, y)], a) == InRow(c, left, right, y, d)
  {
    OneRange(Line(c, base, left, right, y), a);
    RowIsRun(c, left, right, y, d);
  }

  lemma {:induction false} LinesExact(c: Clear, base: nat, left: nat, right: nat, y: nat, bottom: nat, a: nat, d: nat)
    requires GoodMap(c) && left < right && left / 4 == (right - 1) / 4 && At(base, a, d)
    ensures Hits(Lines(c, base, left, right, y, bottom), a) == InBox(c, left, right, y, bottom, d)
    decreases bottom - y
  {
    if y < bottom {
      LineExact(c, base, left, right, y, a, d);
      LinesExact(c, base, left, right, y + 1, bottom, a, d);
      HitsAppend([Line(c, base, left, right, y)], Lines(c, base, left, right, y + 1, bottom), a);
    }
  }

  /** Rows k and up of a microtile are what is left of its 128-byte block. */
  lemma {:induction false} TileIsBlock(c: Clear, col: nat, row: nat, k: nat, d: nat)
    requires GoodMap(c) && col % 4 == 0 && row % 8 == 0 && k <= 8
    ensures InBox(c, col, col + 4, row + k, row + 8, d) == Num(c.at(col, row) + 4 * k <= d < c.at(col, row) + 32)
    decreases 8 - k
  {
    if k < 8 {
      assert col / 4 == (col + 3) / 4;
      assert FirstOf(col, row, col, row + k);
      RowIsRun(c, col, col + 4, row + k, d);
      TileIsBlock(c, col, row, k + 1, d);
    }
  }

  lemma TileExact(c: Clear, base: nat, col: nat, row: nat, a: nat, d: nat)
    requires GoodMap(c) && col % 4 == 0 && row % 8 == 0 && c.x0 < c.x1 && c.y0 < c.y1 && At(base, a, d)
    requires col < c.x1 && c.x0 < col + 4 && row < c.y1 && c.y0 < row + 8
    ensures Hits(Tile(c, base, col, row), a) ==
      InBox(c, Max(col, c.x0), Min(col + 4, c.x1), Max(row, c.y0), Min(row + 8, c.y1), d)
  {
    var left, right, top, bottom := Max(col, c.x0), Min(col + 4, c.x1), Max(row, c.y0), Min(row + 8, c.y1);
    if left == col && right == col + 4 && top == row && bottom == row + 8 {
      OneRange(Range(base + 4 * c.at(col, row), 128), a);
      TileIsBlock(c, col, row, 0, d);
    } else {
      assert left / 4 == col / 4 == (right - 1) / 4;
      LinesExact(c, base, left, right, top, bottom, a, d);
    }
  }

  /** What one more tile of a row, one more row of tiles, adds to the box. */
  lemma NextTile(c: Clear, col: nat, top: nat, bottom: nat, d: nat)
    requires c.x0 < c.x1 && col < c.x1 && c.x0 < col + 4
    ensures InBox(c, Max(col, c.x0), c.x1, top, bottom, d) ==
      InBox(c, Max(col, c.x0), Min(col + 4, c.x1), top, bottom, d) + InBox(c, Max(col + 4, c.x0), c.x1, top, bottom, d)
  {
    SplitX(c, Max(col, c.x0), Min(col + 4, c.x1), c.x1, top, bottom, d);
    if col + 4 > c.x1 {
      NarrowBox(c, col + 4, c.x1, top, bottom, d);
      NarrowBox(c, c.x1, c.x1, top, bottom, d);
    }
  }

  lemma NextTileRow(c: Clear, row: nat, d: nat)
    requires c.y0 < c.y1 && row < c.y1 && c.y0 < row + 8
    ensures InBox(c, c.x0, c.x1, Max(row, c.y0), c.y1, d) ==
      InBox(c, c.x0, c.x1, Max(row, c.y0), Min(row + 8, c.y1), d) + InBox(c, c.x0, c.x1, Max(row + 8, c.y0), c.y1, d)
  {
    SplitY(c, c.x0, c.x1, Max(row, c.y0), Min(row + 8, c.y1), c.y1, d);
  }

  lemma {:induction false} TileRowExact(c: Clear, base: nat, col: nat, row: nat, a: nat, d: nat)
    requires GoodMap(c) && c.x0 < c.x1 && c.y0 < c.y1 && At(base, a, d)
    requires col % 4 == 0 && row % 8 == 0 && c.x0 < col + 4 && row < c.y1 && c.y0 < row + 8
    ensures Hits(TileRow(c, base, col, row), a) ==
      InBox(c, Max(col, c.x0), c.x1, Max(row, c.y0), Min(row + 8, c.y1), d)
    decreases c.x1 - col
  {
    if col < c.x1 {
      TileExact(c, base, col, row, a, d);
      TileRowExact(c, base, col + 4, row, a, d);
      HitsAppend(Tile(c, base, col, row), TileRow(c, base, col + 4, row), a);
      NextTile(c, col, Max(row, c.y0), Min(row + 8, c.y1), d);
    } else {
      NarrowBox(c, Max(col, c.x0), c.x1, Max(row, c.y0), Min(row + 8, c.y1), d);
    }
  }

  lemma {:induction false} TileRowsExact(c: Clear, base: nat, row: nat, a: nat, d: nat)
    requires GoodMap(c) && c.x0 < c.x1 && c.y0 < c.y1 && At(base, a, d)
    requires row % 8 == 0 && c.y0 < row + 8
    ensures Hits(TileRows(c, base, row), a) == InBox(c, c.x0, c.x1, Max(row, c.y0), c.y1, d)
    decreases c.y1 - row
  {
    if row < c.y1 {
      assert Max(Floor4(c.x0), c.x0) == c.x0;
      TileRowExact(c, base, Floor4(c.x0), row, a, d);
      TileRowsExact(c, base, row + 8, a, d);
      HitsAppend(TileRow(c, base, Floor4(c.x0), row), TileRows(c, base, row + 8), a);
      NextTileRow(c, row, d);
    }
  }

  // ----- all layers

  /** Every range lies between two bounds. */
  predicate Bounded(rs: seq<Range>, low: nat, high: nat) {
    forall i | 0 <= i < |rs| :: low <= rs[i].offset && rs[i].bytes > 0 && rs[i].offset + rs[i].bytes <= high
      && rs[i].offset % 4 == 0 && rs[i].bytes % 4 == 0
  }

  lemma BoundedAppend(rs: seq<Range>, ts: seq<Range>, low: nat, high: nat)
    requires Bounded(rs, low, high) && Bounded(ts, low, high)
    ensures Bounded(rs + ts, low, high)
  {
  }

  lemma {:induction false} LinesBounded(c: Clear, base: nat, left: nat, right: nat, y: nat, bottom: nat)
    requires ValidClear(c) && GoodMap(c) && base % 4 == 0
    requires left < right <= c.width && left / 4 == (right - 1) / 4 && bottom <= c.height
    ensures Bounded(Lines(c, base, left, right, y, bottom), base, base + c.stride)
    decreases bottom - y
  {
    if y < bottom {
      assert right - left <= 4 - left % 4 && OnSurface(c, left, y);
      LinesBounded(c, base, left, right, y + 1, bottom);
      BoundedAppend([Line(c, base, left, right, y)], Lines(c, base, left, right, y + 1, bottom), base, base + c.stride);
    }
  }

  lemma TileBounded(c: Clear, base: nat, col: nat, row: nat)
    requires ValidClear(c) && GoodMap(c) && base % 4 == 0 && col % 4 == 0 && row % 8 == 0
    requires col < c.x1 && c.x0 < col + 4 && row < c.y1 && c.y0 < row + 8
    ensures Bounded(Tile(c, base, col, row), base, base + c.stride)
  {
    var left, right, top, bottom := Max(col, c.x0), Min(col + 4, c.x1), Max(row, c.y0), Min(row + 8, c.y1);
    if left == col && right == col + 4 && top == row && bottom == row + 8 {
      assert OnSurface(c, col, row);
    } else {
      assert left / 4 == col / 4 == (right - 1) / 4;
      LinesBounded(c, base, left, right, top, bottom);
    }
  }

  lemma {:induction false} TileRowBounded(c: Clear, base: nat, col: nat, row: nat)
    requires ValidClear(c) && GoodMap(c) && base % 4 == 0 && col % 4 == 0 && row % 8 == 0
    requires c.x0 < col + 4 && row < c.y1 && c.y0 < row + 8
    ensures Bounded(TileRow(c, base, col, row), base, base + c.stride)
    decreases c.x1 - col
  {
    if col < c.x1 {
      TileBounded(c, base, col, row);
      TileRowBounded(c, base, col + 4, row);
      BoundedAppend(Tile(c, base, col, row), TileRow(c, base, col + 4, row), base, base + c.stride);
    }
  }

  lemma {:induction false} TileRowsBounded(c: Clear, base: nat, row: nat)
    requires ValidClear(c) && GoodMap(c) && base % 4 == 0 && row % 8 == 0 && c.y0 < row + 8
    ensures Bounded(TileRows(c, base, row), base, base + c.stride)
    decreases c.y1 - row
  {
    if row < c.y1 {
      var col: nat := Floor4(c.x0);
      TileRowBounded(c, base, col, row);
      TileRowsBounded(c, base, row + 8);
      BoundedAppend(TileRow(c, base, col, row), TileRows(c, base, row + 8), base, base + c.stride);
    }
  }

  lemma LayerBounded(c: Clear, layer: nat)
    requires ValidClear(c) && GoodMap(c)
    ensures Bounded(Layer(c, layer), Base(c, layer), Base(c, layer) + c.stride)
  {
    var base := Base(c, layer);
    AlignedBase(c, layer);
    if c.chosen(layer) && !Whole(c) {
      TileRowsBounded(c, base, Floor8(c.y0));
    }
  }

  lemma {:induction false} AlignedBase(c: Clear, layer: nat)
    requires c.stride % 4 == 0
    ensures Base(c, layer) % 4 == 0
  {
    if layer > 0 { AlignedBase(c, layer - 1); }
  }

  lemma {:induction false} LaterLayer(c: Clear, layer: nat, other: nat)
    requires layer < other
    ensures Base(c, layer) + c.stride <= Base(c, other)
    decreases other
  {
    if layer + 1 < other { LaterLayer(c, layer, other - 1); }
  }

  lemma {:induction false} NoHitsOutside(rs: seq<Range>, low: nat, high: nat, a: nat)
    requires Bounded(rs, low, high) && !(low <= a < high)
    ensures Hits(rs, a) == 0
    decreases |rs|
  {
    if rs != [] {
      NoHitsOutside(rs[1..], low, high, a);
    }
  }

  /** How often the clear should write byte a in one layer: once for each texel of
      the rectangle it belongs to, or once if the rectangle is the whole surface. */
  ghost function Due(c: Clear, layer: nat, a: nat): nat {
    if !c.chosen(layer) then 0
    else if Whole(c) then Num(Base(c, layer) <= a < Base(c, layer) + c.stride)
    else if a < Base(c, layer) then 0
    else InBox(c, c.x0, c.x1, c.y0, c.y1, (a - Base(c, layer)) / 4)
  }

  lemma LayerExact(c: Clear, layer: nat, a: nat)
    requires ValidClear(c) && GoodMap(c)
    ensures Hits(Layer(c, layer), a) == Due(c, layer, a)
  {
    hide TileRows, InBox, Base;
    if c.chosen(layer) {
      if Whole(c) {
        OneRange(Range(Base(c, layer), c.stride), a);
      } else {
        ClippedExact(c, layer, Base(c, layer), a);
      }
    }
  }

  lemma ClippedExact(c: Clear, layer: nat, base: nat, a: nat)
    requires ValidClear(c) && GoodMap(c) && base == Base(c, layer)
    ensures Hits(TileRows(c, base, Floor8(c.y0)), a) ==
      if a < base then 0 else InBox(c, c.x0, c.x1, c.y0, c.y1, (a - base) / 4)
  {
    if a < base {
      AlignedBase(c, layer);
      TileRowsBounded(c, base, Floor8(c.y0));
      NoHitsOutside(TileRows(c, base, Floor8(c.y0)), base, base + c.stride, a);
    } else {
      assert Max(Floor8(c.y0), c.y0) == c.y0;
      TileRowsExact(c, base, Floor8(c.y0), a, (a - base) / 4);
    }
  }

  /** A byte outside a layer is not due in it. */
  lemma OutsideLayer(c: Clear, layer: nat, a: nat)
    requires ValidClear(c) && GoodMap(c)
    ensures !(Base(c, layer) <= a < Base(c, layer) + c.stride) ==> Due(c, layer, a) == 0
  {
    var low := Base(c, layer);
    LayerBounded(c, layer);
    LayerExact(c, layer, a);
    if !(low <= a < low + c.stride) {
      NoHitsOutside(Layer(c, layer), low, low + c.stride, a);
    }
  }

  ghost function DueFrom(c: Clear, layer: nat, a: nat): nat
    decreases c.layers - layer
  {
    if layer >= c.layers then 0 else Due(c, layer, a) + DueFrom(c, layer + 1, a)
  }

  /** The ranges write each byte exactly as often as it is due. */
  lemma {:induction false} PlanExact(c: Clear, layer: nat, a: nat)
    requires ValidClear(c) && GoodMap(c)
    ensures Hits(Plan(c, layer), a) == DueFrom(c, layer, a)
    decreases c.layers - layer
  {
    if layer < c.layers {
      LayerExact(c, layer, a);
      PlanExact(c, layer + 1, a);
      HitsAppend(Layer(c, layer), Plan(c, layer + 1), a);
    }
  }

  lemma {:induction false} PlanBounded(c: Clear, layer: nat)
    requires ValidClear(c) && GoodMap(c)
    ensures Bounded(Plan(c, layer), 0, Base(c, c.layers))
    decreases c.layers - layer
  {
    if layer < c.layers {
      LayerBounded(c, layer);
      PlanBounded(c, layer + 1);
      LaterLayer(c, layer, c.layers);
      BoundedAppend(Layer(c, layer), Plan(c, layer + 1), 0, Base(c, c.layers));
    }
  }

  // ----- each target byte once

  /** Texel (x, y) of layer `layer` owns byte a. */
  predicate Owns(c: Clear, layer: nat, x: nat, y: nat, a: nat) {
    Base(c, layer) + 4 * c.at(x, y) <= a < Base(c, layer) + 4 * c.at(x, y) + 4
  }

  /** The bytes a clear is for: those of the rectangle's texels in the selected
      layers or, when the rectangle is the whole surface, the selected layers. */
  ghost predicate TargetIn(c: Clear, layer: nat, a: nat) {
    && c.chosen(layer)
    && if Whole(c) then Base(c, layer) <= a < Base(c, layer) + c.stride
       else exists x: nat, y: nat :: c.x0 <= x < c.x1 && c.y0 <= y < c.y1 && Owns(c, layer, x, y, a)
  }

  ghost predicate Target(c: Clear, from: nat, a: nat) {
    exists layer: nat :: from <= layer < c.layers && TargetIn(c, layer, a)
  }

  ghost predicate SomeInRow(c: Clear, xa: nat, xb: nat, y: nat, d: nat) {
    exists x: nat :: xa <= x < xb && c.at(x, y) == d
  }

  lemma {:induction false} RowMeaning(c: Clear, xa: nat, xb: nat, y: nat, d: nat)
    requires Injective(c) && xb <= c.width
    ensures InRow(c, xa, xb, y, d) == Num(SomeInRow(c, xa, xb, y, d))
    decreases xb - xa
  {
    if xa < xb {
      RowMeaning(c, xa + 1, xb, y, d);
      if c.at(xa, y) == d {
        assert forall x: nat | xa + 1 <= x < xb :: c.at(x, y) != d;
        assert SomeInRow(c, xa, xb, y, d);
      } else if SomeInRow(c, xa, xb, y, d) {
        var x: nat :| xa <= x < xb && c.at(x, y) == d;
        assert SomeInRow(c, xa + 1, xb, y, d);
      }
    }
  }

  ghost predicate SomeInBox(c: Clear, xa: nat, xb: nat, ya: nat, yb: nat, d: nat) {
    exists y: nat :: ya <= y < yb && SomeInRow(c, xa, xb, y, d)
  }

  lemma {:induction false} BoxMeaning(c: Clear, xa: nat, xb: nat, ya: nat, yb: nat, d: nat)
    requires Injective(c) && xb <= c.width
    ensures InBox(c, xa, xb, ya, yb, d) == Num(SomeInBox(c, xa, xb, ya, yb, d))
    decreases yb - ya
  {
    if ya < yb {
      RowMeaning(c, xa, xb, ya, d);
      BoxMeaning(c, xa, xb, ya + 1, yb, d);
      if SomeInRow(c, xa, xb, ya, d) {
        var x: nat :| xa <= x < xb && c.at(x, ya) == d;
        forall y: nat | ya + 1 <= y < yb ensures !SomeInRow(c, xa, xb, y, d) {
          assert forall x': nat | xa <= x' < xb :: c.at(x', y) != d;
        }
        assert SomeInBox(c, xa, xb, ya, yb, d);
      } else if SomeInBox(c, xa, xb, ya, yb, d) {
        var y: nat :| ya <= y < yb && SomeInRow(c, xa, xb, y, d);
        assert y != ya;
        assert SomeInBox(c, xa, xb, ya + 1, yb, d);
      }
    }
  }

  /** Owning a byte is lying at its dword. */
  lemma OwnsByDword(c: Clear, layer: nat, base: nat, x: nat, y: nat, a: nat)
    requires base == Base(c, layer) && base <= a
    ensures Owns(c, layer, x, y, a) <==> c.at(x, y) == (a - base) / 4
  {
  }

  lemma DueMeaning(c: Clear, layer: nat, a: nat)
    requires ValidClear(c) && Injective(c)
    ensures Due(c, layer, a) == Num(TargetIn(c, layer, a))
  {
    var base := Base(c, layer);
    if c.chosen(layer) && !Whole(c) && base <= a {
      var d := (a - base) / 4;
      BoxMeaning(c, c.x0, c.x1, c.y0, c.y1, d);
      if SomeInBox(c, c.x0, c.x1, c.y0, c.y1, d) {
        var y: nat :| c.y0 <= y < c.y1 && SomeInRow(c, c.x0, c.x1, y, d);
        var x: nat :| c.x0 <= x < c.x1 && c.at(x, y) == d;
        OwnsByDword(c, layer, base, x, y, a);
        assert TargetIn(c, layer, a);
      }
      if TargetIn(c, layer, a) {
        var x: nat, y: nat :| c.x0 <= x < c.x1 && c.y0 <= y < c.y1 && Owns(c, layer, x, y, a);
        OwnsByDword(c, layer, base, x, y, a);
        assert SomeInRow(c, c.x0, c.x1, y, d);
      }
    }
  }

  lemma OneLayer(c: Clear, layer: nat, other: nat, a: nat)
    requires ValidClear(c) && GoodMap(c) && Injective(c) && layer < other
    ensures !(TargetIn(c, layer, a) && TargetIn(c, other, a))
  {
    OutsideLayer(c, layer, a);
    OutsideLayer(c, other, a);
    DueMeaning(c, layer, a);
    DueMeaning(c, other, a);
    LaterLayer(c, layer, other);
  }

  lemma {:induction false} DueOnce(c: Clear, layer: nat, a: nat)
    requires ValidClear(c) && GoodMap(c) && Injective(c)
    ensures DueFrom(c, layer, a) == Num(Target(c, layer, a))
    decreases c.layers - layer
  {
    if layer < c.layers {
      DueMeaning(c, layer, a);
      DueOnce(c, layer + 1, a);
      if TargetIn(c, layer, a) {
        forall other: nat | layer + 1 <= other < c.layers ensures !TargetIn(c, other, a) {
          OneLayer(c, layer, other, a);
        }
        assert Target(c, layer, a);
      } else if Target(c, layer, a) {
        var other: nat :| layer <= other < c.layers && TargetIn(c, other, a);
        assert other != layer;
        assert Target(c, layer + 1, a);
      }
    }
  }

  /** Exact coverage: a byte of the allocation lies in exactly one range of the
      plan if it is a target of the clear, and in none if it is not. */
  lemma ExactCoverage(c: Clear, a: nat)
    requires ValidClear(c) && GoodMap(c) && Injective(c)
    ensures Hits(Plan(c, 0), a) == Num(Target(c, 0, a))
  {
    PlanExact(c, 0, a);
    DueOnce(c, 0, a);
  }

  // ----- how many ranges that takes

  lemma {:induction false} LinesCount(c: Clear, base: nat, left: nat, right: nat, y: nat, bottom: nat)
    requires left <= right
    ensures |Lines(c, base, left, right, y, bottom)| == if y < bottom then bottom - y else 0
    decreases bottom - y
  {
    if y < bottom { LinesCount(c, base, left, right, y + 1, bottom); }
  }

  /** A tile inside the rectangle takes one range; one that the rectangle cuts takes
      one for each of its rows that is met. */
  lemma TileCount(c: Clear, base: nat, col: nat, row: nat)
    requires ValidClear(c) && c.x0 < col + 4 && col < c.x1 && c.y0 < row + 8 && row < c.y1
    ensures var inside := c.x0 <= col && col + 4 <= c.x1 && c.y0 <= row && row + 8 <= c.y1;
      |Tile(c, base, col, row)| == if inside then 1 else Min(row + 8, c.y1) - Max(row, c.y0)
  {
    LinesCount(c, base, Max(col, c.x0), Min(col + 4, c.x1), Max(row, c.y0), Min(row + 8, c.y1));
  }

  /** A layer that is cleared as a whole takes one range. */
  lemma WholeLayerCount(c: Clear, layer: nat)
    requires Whole(c)
    ensures |Layer(c, layer)| == Num(c.chosen(layer))
  {
  }
}
