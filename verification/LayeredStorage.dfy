/** The storage of a layered attachment (native/image_ps5.c): one layer's samples
    rounded up to the surface's alignment, and as many of those as there are layers. */
module LayeredStorage {
  import opened Words
  import ColorDetile

  datatype Format = Color | D32 | D16 | D32S8 | Unsupported

  const MAX_COLOR_DIMENSION: nat := 16383
  const MAX_DEPTH_DIMENSION: nat := 16384

  /** The powers of two that sizes are rounded to. */
  predicate Unit(unit: nat) { unit == 128 || unit == 256 || unit == 0x1_0000 || unit == 0x2_0000 }

  /** What is above the last multiple of a unit: the bits below it. */
  function Rest(x: nat, unit: nat): (r: nat)
    requires Unit(unit)
    ensures r < unit && r <= x
  {
    if unit == 128 then x % 128
    else if unit == 256 then x % 256
    else if unit == 0x1_0000 then x % 0x1_0000
    else x % 0x2_0000
  }

  predicate Multiple(x: nat, unit: nat)
    requires Unit(unit)
  {
    Rest(x, unit) == 0
  }

  /** Rounding up by adding and masking. */
  function Pad(x: nat, unit: nat): (y: nat)
    requires Unit(unit)
    ensures x <= y < x + unit && Multiple(y, unit)
  {
    x + unit - 1 - Rest(x + unit - 1, unit)
  }

  function Area(width: nat, height: nat): nat { width * height }

  /** The bytes of one sample of a layer in the 64 KiB depth tiling. */
  function DepthBytes(width: nat, height: nat): Option<nat> {
    if width == 0 || height == 0 || width > MAX_DEPTH_DIMENSION || height > MAX_DEPTH_DIMENSION then None
    else Some(4 * Area(Pad(width, 128), Pad(height, 128)))
  }

  function Depth16Bytes(width: nat, height: nat): Option<nat> {
    if width == 128 && height == 128 then Some(0x1_0000) else None
  }

  function LayerBytes(format: Format, width: nat, height: nat): Option<nat> {
    if format == D16 then Depth16Bytes(width, height) else DepthBytes(width, height)
  }

  /** The depth plane, and where the stencil plane starts and ends. */
  datatype Planes = Planes(depthBytes: nat, stencilOffset: nat, stencilBytes: nat, bytes: nat)

  function PlanesOf(width: nat, height: nat): Option<Planes> {
    var depth := DepthBytes(width, height);
    if depth.None? then None
    else
      var stencil, offset := Area(Pad(width, 256), Pad(height, 256)), Pad(depth.value, 0x1_0000);
      Some(Planes(depth.value, offset, stencil, offset + stencil))
  }

  function BaseAlignment(format: Format): nat { if format == Color then 0x2_0000 else 0x1_0000 }

  datatype Storage = Storage(rc: VkResult, stride: nat, alignment: nat, bytes: nat)

  function Refused(rc: VkResult): Storage { Storage(rc, 0, 0, 0) }

  /** Rounding up in 64-bit arithmetic: the sum may wrap before the mask. */
  function RoundUp(x: nat, alignment: nat): nat
    requires Unit(alignment)
  {
    var sum := (x + alignment - 1) % U64;
    sum - Rest(sum, alignment)
  }

  function Times(a: nat, b: nat): nat { a * b }

  /** The most that n can multiply without passing 64 bits. */
  function Most(n: nat): nat
    requires n > 0
  {
    (U64 - 1) / n
  }

  predicate WithinColorLimit(width: nat, height: nat) { width <= MAX_COLOR_DIMENSION && height <= MAX_COLOR_DIMENSION }

  /** `samples` is 1, 2 or 4, or 0 for a count the profile does not implement. */
  function LayeredStorage(format: Format, width: nat, height: nat, layers: nat, samples: nat): Storage {
    if layers == 0 then Refused(Unknown)
    else if format == D32S8 then
      var planes := PlanesOf(width, height);
      if samples != 1 || layers != 1 || planes.None? then Refused(FormatNotSupported)
      else Storage(Success, planes.value.bytes, 0x1_0000, planes.value.bytes)
    else if format == Unsupported || width == 0 || height == 0 then Refused(FormatNotSupported)
    else if samples == 0 || (samples > 1 && format != Color) then Refused(FormatNotSupported)
    else if format == Color && !WithinColorLimit(width, height) then Refused(FormatNotSupported)
    else
      var layer, alignment := LayerBytes(format, width, height), BaseAlignment(format);
      if layer.None? then Refused(FormatNotSupported)
      else if layer.value > U64 - 1 - (alignment - 1) then Refused(Unknown)
      else if layer.value > Most(samples) then Refused(OutOfHostMemory)
      else
        var stride := RoundUp(Times(layer.value, samples), alignment);
        if stride == 0 || stride > Most(layers) then Refused(OutOfHostMemory)
        else Storage(Success, stride, alignment, Times(stride, layers))
  }

  // ----- what it means

  /** y is the least multiple of `unit` that is at least x. */
  ghost predicate IsLeastMultiple(y: nat, x: nat, unit: nat)
    requires Unit(unit)
  {
    x <= y && Multiple(y, unit) && forall m: nat | x <= m && Multiple(m, unit) :: y <= m
  }

  lemma NextMultiple(m: nat, y: nat, unit: nat)
    requires Unit(unit) && Multiple(m, unit) && Multiple(y, unit) && m < y
    ensures m + unit <= y
  {
  }

  lemma PadIsLeast(x: nat, unit: nat)
    requires Unit(unit)
    ensures IsLeastMultiple(Pad(x, unit), x, unit)
  {
    hide Pad;
    forall m: nat | x <= m && Multiple(m, unit) ensures Pad(x, unit) <= m {
      if m < Pad(x, unit) { NextMultiple(m, Pad(x, unit), unit); }
    }
  }

  lemma RoundUpIsPad(x: nat, alignment: nat)
    requires Unit(alignment) && x + alignment <= U64
    ensures RoundUp(x, alignment) == Pad(x, alignment)
  {
  }

  /** One sample of a layer takes between 1 byte and 1 GiB. */
  lemma LayerIsSmall(format: Format, width: nat, height: nat)
    requires LayerBytes(format, width, height).Some?
    ensures 0 < LayerBytes(format, width, height).value <= 0x4000_0000
  {
    hide Pad;
    if format != D16 {
      var a, b := Pad(width, 128), Pad(height, 128);
      Sixteen(width, a);
      Sixteen(height, b);
      Product(a, b);
    }
  }

  lemma Sixteen(x: nat, padded: nat)
    requires 0 < x <= MAX_DEPTH_DIMENSION && x <= padded < x + 128 && Multiple(padded, 128)
    ensures 0 < padded <= MAX_DEPTH_DIMENSION
  {
  }

  lemma Product(a: nat, b: nat)
    requires 0 < a <= 16384 && 0 < b <= 16384
    ensures 0 < a * b <= 0x1000_0000
  {
    Grows(a, 1, b);
    Grows(a, b, 16384);
  }

  lemma {:induction false} Grows(a: nat, b: nat, c: nat)
    requires b <= c
    ensures a * b <= a * c
    decreases c - b
  {
    if b < c {
      Grows(a, b + 1, c);
      assert a * (b + 1) == a * b + a;
    }
  }

  predicate SampleCount(samples: nat) { samples == 0 || samples == 1 || samples == 2 || samples == 4 }

  /** On success, outside the two-plane format, the stride is the least multiple of
      the alignment that covers one layer's samples, and the total is one stride a
      layer, without wrapping. */
  lemma StrideIsLeast(format: Format, width: nat, height: nat, layers: nat, samples: nat)
    requires SampleCount(samples) && format != D32S8
    requires LayeredStorage(format, width, height, layers, samples).rc == Success
    ensures var s := LayeredStorage(format, width, height, layers, samples);
      && s.alignment == BaseAlignment(format) && LayerBytes(format, width, height).Some?
      && IsLeastMultiple(s.stride, LayerBytes(format, width, height).value * samples, s.alignment)
      && s.stride > 0 && s.bytes == s.stride * layers < U64
  {
    hide LayerBytes, RoundUp, Pad, IsLeastMultiple;
    var layer := LayerBytes(format, width, height).value;
    LayerIsSmall(format, width, height);
    assert layer * samples <= 0x1_0000_0000;
    RoundUpIsPad(layer * samples, BaseAlignment(format));
    PadIsLeast(layer * samples, BaseAlignment(format));
    NoWrap(RoundUp(layer * samples, BaseAlignment(format)), layers);
  }

  lemma NoWrap(stride: nat, layers: nat)
    requires layers > 0
    ensures stride <= (U64 - 1) / layers <==> stride * layers < U64
  {
    var q := (U64 - 1) / layers;
    assert q * layers <= U64 - 1 < (q + 1) * layers;
    if stride <= q {
      Grows(layers, stride, q);
    } else {
      Grows(layers, q + 1, stride);
    }
  }

  /** A supported surface is refused for its size exactly when its layers would
      not fit a 64-bit byte count. */
  lemma RefusedIffTooLarge(format: Format, width: nat, height: nat, layers: nat, samples: nat)
    requires SampleCount(samples) && samples > 0 && layers > 0
    requires format == Color || (format != D32S8 && format != Unsupported && samples == 1)
    requires LayerBytes(format, width, height).Some? && (format == Color ==> WithinColorLimit(width, height))
    ensures var s := LayeredStorage(format, width, height, layers, samples);
      var stride := Pad(LayerBytes(format, width, height).value * samples, BaseAlignment(format));
      && (s.rc == Success <==> stride * layers < U64)
      && (s.rc == OutOfHostMemory <==> stride * layers >= U64)
  {
    hide RoundUp, Pad;
    var layer := LayerBytes(format, width, height).value;
    LayerIsSmall(format, width, height);
    RoundUpIsPad(layer * samples, BaseAlignment(format));
    NoWrap(Pad(layer * samples, BaseAlignment(format)), layers);
    SurfaceIsNotEmpty(format, width, height);
  }

  lemma SurfaceIsNotEmpty(format: Format, width: nat, height: nat)
    requires LayerBytes(format, width, height).Some?
    ensures width > 0 && height > 0
  {
  }

  function LayerStart(layer: nat, stride: nat): nat { layer * stride }

  /** The layers of an accepted surface are aligned, disjoint and in bounds. */
  lemma LayersAreApart(format: Format, width: nat, height: nat, layers: nat, samples: nat, i: nat, j: nat)
    requires SampleCount(samples) && format != D32S8 && i < j < layers
    requires LayeredStorage(format, width, height, layers, samples).rc == Success
    ensures var s := LayeredStorage(format, width, height, layers, samples);
      && s.alignment == BaseAlignment(format)
      && Multiple(LayerStart(i, s.stride), s.alignment) && Multiple(LayerStart(j, s.stride), s.alignment)
      && LayerStart(i, s.stride) + s.stride <= LayerStart(j, s.stride) && LayerStart(j, s.stride) + s.stride <= s.bytes
  {
    hide LayeredStorage;
    var s := LayeredStorage(format, width, height, layers, samples);
    StrideIsLeast(format, width, height, layers, samples);
    MultipleOfMultiple(i, s.stride, s.alignment);
    MultipleOfMultiple(j, s.stride, s.alignment);
    Grows(s.stride, i + 1, j);
    Grows(s.stride, j + 1, layers);
    assert s.stride * (i + 1) == i * s.stride + s.stride && s.stride * (j + 1) == j * s.stride + s.stride;
  }

  lemma {:induction false} MultipleOfMultiple(k: nat, x: nat, unit: nat)
    requires Unit(unit) && Multiple(x, unit)
    ensures Multiple(k * x, unit)
  {
    hide Rest;
    if k == 0 {
      SumOfMultiples(0, 0, unit);
    } else {
      MultipleOfMultiple(k - 1, x, unit);
      assert k * x == (k - 1) * x + x;
      SumOfMultiples((k - 1) * x, x, unit);
    }
  }

  lemma SumOfMultiples(a: nat, b: nat, unit: nat)
    requires Unit(unit)
    ensures Multiple(0, unit)
    ensures Multiple(a, unit) && Multiple(b, unit) ==> Multiple(a + b, unit)
  {
    if unit == 128 { Sum128(a, b); } else if unit == 256 { Sum256(a, b); }
    else if unit == 0x1_0000 { Sum64K(a, b); } else { Sum128K(a, b); }
  }

  lemma Sum128(a: nat, b: nat)
    ensures a % 128 == 0 && b % 128 == 0 ==> (a + b) % 128 == 0
  {
  }

  lemma Sum256(a: nat, b: nat)
    ensures a % 256 == 0 && b % 256 == 0 ==> (a + b) % 256 == 0
  {
  }

  lemma Sum64K(a: nat, b: nat)
    ensures a % 0x1_0000 == 0 && b % 0x1_0000 == 0 ==> (a + b) % 0x1_0000 == 0
  {
  }

  lemma Sum128K(a: nat, b: nat)
    ensures a % 0x2_0000 == 0 && b % 0x2_0000 == 0 ==> (a + b) % 0x2_0000 == 0
  {
  }

  /** The two planes of the combined format do not overlap, start aligned and fill
      the reported size. */
  lemma PlanesAreApart(width: nat, height: nat)
    requires LayeredStorage(D32S8, width, height, 1, 1).rc == Success
    ensures var s, planes := LayeredStorage(D32S8, width, height, 1, 1), PlanesOf(width, height).value;
      && planes.depthBytes <= planes.stencilOffset
      && s.alignment == 0x1_0000 && Multiple(planes.stencilOffset, s.alignment)
      && planes.stencilOffset + planes.stencilBytes == s.bytes == s.stride
      && Some(planes.depthBytes) == DepthBytes(width, height)
  {
  }

  // ----- against the tilings

  lemma PadIsTiles(x: nat)
    ensures Pad(x, 128) == 128 * ((x + 127) / 128) && Pad(x, 256) == 256 * ((x + 255) / 256)
  {
  }

  lemma TileArea(tx: nat, ty: nat)
    ensures 4 * Area(128 * tx, 128 * ty) == tx * ty * 0x1_0000 && Area(256 * tx, 256 * ty) == tx * ty * 0x1_0000
  {
    assert 128 * tx * (128 * ty) == 16384 * (tx * ty);
    assert 256 * tx * (256 * ty) == 65536 * (tx * ty);
  }

  /** A layer of four-byte samples takes what the 64 KiB tiling says its surface
      takes: 64 KiB for each 128x128 tile begun. */
  lemma LayerIsItsTiles(width: nat, height: nat)
    requires DepthBytes(width, height).Some?
    ensures DepthBytes(width, height) == ColorDetile.SurfaceSize(width, height)
  {
    hide Area, Pad;
    var tx, ty := ColorDetile.TilesAcross(width), ColorDetile.TilesAcross(height);
    PadIsTiles(width);
    PadIsTiles(height);
    TileArea(tx, ty);
    assert 0 < tx <= 128 && 0 < ty <= 128;
    TilesFit(tx, ty, tx * ty);
  }

  lemma TilesFit(tx: nat, ty: nat, tiles: nat)
    requires 0 < tx <= 128 && 0 < ty <= 128 && tiles == tx * ty
    ensures ty <= SIZE_MAX / tx && tiles <= SIZE_MAX / 0x1_0000
  {
    Grows(tx, ty, 128);
    assert tx * 128 <= 16384;
    NoWrap(ty, tx);
    assert ty * tx == tiles;
  }

  /** The stencil plane starts at the first multiple of 64 KiB behind the depth plane
      and takes 64 KiB for each 256x256 tile begun. */
  lemma StencilIsItsTiles(width: nat, height: nat)
    requires PlanesOf(width, height).Some?
    ensures var planes := PlanesOf(width, height).value;
      && IsLeastMultiple(planes.stencilOffset, planes.depthBytes, 0x1_0000)
      && planes.stencilBytes == (width + 255) / 256 * ((height + 255) / 256) * 0x1_0000
      && planes.bytes == planes.stencilOffset + planes.stencilBytes
  {
    hide Area, Pad, IsLeastMultiple;
    PadIsTiles(width);
    PadIsTiles(height);
    TileArea((width + 255) / 256, (height + 255) / 256);
    PadIsLeast(DepthBytes(width, height).value, 0x1_0000);
  }

  /** What is supported: up to 16383 texels each way and one, two or four samples for
      colour; up to 16384 and one sample for depth; one tile of 16-bit depth; one
      layer of the two-plane format. */
  predicate Supported(format: Format, width: nat, height: nat, layers: nat, samples: nat) {
    match format
    case Color => 1 <= width <= 16383 && 1 <= height <= 16383 && (samples == 1 || samples == 2 || samples == 4)
    case D32 => 1 <= width <= 16384 && 1 <= height <= 16384 && samples == 1
    case D16 => width == 128 && height == 128 && samples == 1
    case D32S8 => 1 <= width <= 16384 && 1 <= height <= 16384 && samples == 1 && layers == 1
    case Unsupported => false
  }

  /** A surface is refused as unsupported exactly when it is. */
  lemma SupportedIff(format: Format, width: nat, height: nat, layers: nat, samples: nat)
    requires SampleCount(samples)
    ensures layers > 0 ==>
      (LayeredStorage(format, width, height, layers, samples).rc != FormatNotSupported
       <==> Supported(format, width, height, layers, samples))
    ensures layers == 0 <==> LayeredStorage(format, width, height, layers, samples).rc == Unknown
  {
    hide Pad, RoundUp, Times, Most, Area;
    if LayerBytes(format, width, height).Some? { LayerIsSmall(format, width, height); }
  }
}
