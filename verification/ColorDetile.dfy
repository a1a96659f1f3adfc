/** The SW_64K_R_X address equation for four-byte texels (src/color_detile.c):
    a tile of 128x128 texels whose address bits are XORs of coordinate bits. */
module ColorDetile {
  import opened Words

  const TILE: nat := 128
  const TILE_BYTES: nat := 0x1_0000

  const RGBA8_X: seq<nat> := [0x0004, 0x0008, 0x0080, 0x0100, 0x2200, 0x0800, 0x8400]
  const RGBA8_Y: seq<nat> := [0x0010, 0x0020, 0x0040, 0x1100, 0x0200, 0x0400, 0x4800]

  // ----- bits of natural numbers

  predicate Bit(n: nat, k: nat) { if k == 0 then n % 2 == 1 else Bit(n / 2, k - 1) }

  function Num(b: bool): nat { if b then 1 else 0 }

  function Xor(a: nat, b: nat): nat
    decreases a + b
  {
    if a == 0 && b == 0 then 0 else 2 * Xor(a / 2, b / 2) + Num((a % 2 == 1) != (b % 2 == 1))
  }

  lemma {:induction false} XorBit(a: nat, b: nat, k: nat)
    ensures Bit(Xor(a, b), k) == (Bit(a, k) != Bit(b, k))
    decreases k
  {
    if k > 0 {
      XorBit(a / 2, b / 2, k - 1);
    }
  }

  function Pow2(k: nat): (p: nat)
    ensures p > 0
  {
    if k == 0 then 1 else 2 * Pow2(k - 1)
  }

  lemma {:induction false} XorWidth(a: nat, b: nat, k: nat)
    requires a < Pow2(k) && b < Pow2(k)
    ensures Xor(a, b) < Pow2(k)
    decreases k
  {
    if k > 0 {
      XorWidth(a / 2, b / 2, k - 1);
    }
  }

  /** XOR does not grow past sixteen bits. */
  lemma Xor16(a: nat, b: nat)
    requires a < 0x1_0000 && b < 0x1_0000
    ensures Xor(a, b) < 0x1_0000
  {
    assert Pow2(4) == 16 && Pow2(8) == 256 && Pow2(12) == 4096 && Pow2(16) == 65536;
    XorWidth(a, b, 16);
  }

  lemma Halves(n: nat)
    ensures n == Num(Bit(n, 0)) + 2 * (n / 2)
  {
  }

  function Code4(a: bool, b: bool, c: bool, d: bool): nat { Num(a) + 2 * Num(b) + 4 * Num(c) + 8 * Num(d) }

  /** Four bits of n from bit k on, as a number. */
  function Nib(n: nat, k: nat): nat { Code4(Bit(n, k), Bit(n, k + 1), Bit(n, k + 2), Bit(n, k + 3)) }

  // The lemmas below name the lowest bit z and require z == 0. Bit recurses on
  // its position, and at positions written as literals the verifier would
  // compute every call down to bit 0; at z + 1, z + 2, ... it unfolds only where asked.

  /** The four lowest bits of n and what is above them. */
  lemma Nibble(n: nat, z: nat)
    requires z == 0
    ensures n == Nib(n, z) + 16 * (n / 16)
  {
    var a := n / 2;
    var b := a / 2;
    var c := b / 2;
    Halves(n); Halves(a); Halves(b); Halves(c);
    assert Bit(n, 1) == Bit(a, 0);
    assert Bit(n, 2) == Bit(a, 1) == Bit(b, 0);
    assert Bit(n, 3) == Bit(a, 2) == Bit(b, 1) == Bit(c, 0);
    Quarter(n);
    assert c / 2 == n / 16;
  }

  lemma Quarter(n: nat)
    ensures n / 2 / 2 == n / 4 && n / 4 / 2 == n / 8 && n / 8 / 2 == n / 16
  {
  }

  lemma Above4(n: nat, k: nat)
    ensures Bit(n, k + 4) == Bit(n / 16, k)
  {
    Quarter(n);
    assert Bit(n, k + 4) == Bit(n / 2, k + 3) == Bit(n / 2 / 2, k + 2) == Bit(n / 2 / 2 / 2, k + 1);
  }

  lemma NibAbove(n: nat, k: nat)
    ensures Nib(n, k + 4) == Nib(n / 16, k)
  {
    Above4(n, k); Above4(n, k + 1); Above4(n, k + 2); Above4(n, k + 3);
  }

  /** A sixteen-bit number is the sum of its bits. */
  lemma Sixteen(n: nat, z: nat)
    requires n < 0x1_0000 && z == 0
    ensures n == Nib(n, z) + 16 * Nib(n, z + 4) + 256 * Nib(n, z + 8) + 4096 * Nib(n, z + 12)
  {
    var a := n / 16;
    var b := a / 16;
    var c := b / 16;
    assert c / 16 == 0;
    NibAbove(n, z); NibAbove(n, z + 4); NibAbove(n, z + 8);
    NibAbove(a, z); NibAbove(a, z + 4);
    NibAbove(b, z);
    assert n == Nib(n, z) + 16 * a by { Nibble(n, z); }
    assert a == Nib(n, z + 4) + 16 * b by { Nibble(a, z); }
    assert b == Nib(n, z + 8) + 16 * c by { Nibble(b, z); }
    assert c == Nib(n, z + 12) by { Nibble(c, z); }
  }

  // ----- the equation

  /** `start` XORed with the masks of the first k set bits of n. */
  function Selected(start: nat, n: nat, masks: seq<nat>, k: nat): nat
    requires k <= |masks|
  {
    if k == 0 then start
    else if Bit(n, k - 1) then Xor(Selected(start, n, masks, k - 1), masks[k - 1])
    else Selected(start, n, masks, k - 1)
  }

  /** The byte of texel (x, y) inside its own tile. */
  function LocalOffset(x: nat, y: nat): nat {
    Selected(Selected(0, x % TILE, RGBA8_X, 7), y % TILE, RGBA8_Y, 7)
  }

  function TilesAcross(width: nat): nat { (width + TILE - 1) / TILE }

  function SurfaceSize(width: nat, height: nat): Option<nat> {
    if width == 0 || height == 0 then None
    else
      var tx, ty := TilesAcross(width), TilesAcross(height);
      if ty > SIZE_MAX / tx || tx * ty > SIZE_MAX / TILE_BYTES then None else Some(tx * ty * TILE_BYTES)
  }

  function Offset(x: nat, y: nat, width: nat): Option<nat> {
    if width == 0 || x >= width then None
    else
      var tx := TilesAcross(width);
      if y / TILE > SIZE_MAX / tx then None
      else
        var index := y / TILE * tx + x / TILE;
        if index > SIZE_MAX / TILE_BYTES then None else Some(index * TILE_BYTES + LocalOffset(x, y))
  }

  /** The two loops of the equation, bit by bit. */
  method Affine(x: nat, y: nat, xm: seq<nat>, ym: seq<nat>) returns (result: nat)
    ensures result == Selected(Selected(0, x, xm, |xm|), y, ym, |ym|)
  {
    result := 0;
    var bit := 0;
    while bit < |xm|
      invariant bit <= |xm| && result == Selected(0, x, xm, bit)
    {
      if Bit(x, bit) { result := Xor(result, xm[bit]); }
      bit := bit + 1;
    }
    bit := 0;
    while bit < |ym|
      invariant bit <= |ym| && result == Selected(Selected(0, x, xm, |xm|), y, ym, bit)
    {
      if Bit(y, bit) { result := Xor(result, ym[bit]); }
      bit := bit + 1;
    }
  }

  method TexelOffset(x: nat, y: nat, width: nat) returns (offset: Option<nat>)
    ensures offset == Offset(x, y, width)
  {
    if width == 0 || x >= width {
      return None;
    }
    var local := Affine(x % TILE, y % TILE, RGBA8_X, RGBA8_Y);
    var tx := (width + TILE - 1) / TILE;
    var tileY := y / TILE;
    if tileY > SIZE_MAX / tx {
      return None;
    }
    var index := tileY * tx + x / TILE;
    if index > SIZE_MAX / TILE_BYTES {
      return None;
    }
    offset := Some(index * TILE_BYTES + local);
  }

  // ----- what the equation means

  /** Whether bit j of a mask is set. */
  predicate Parity(n: nat, masks: seq<nat>, k: nat, j: nat)
    requires k <= |masks|
  {
    if k == 0 then false else Parity(n, masks, k - 1, j) != (Bit(n, k - 1) && Bit(masks[k - 1], j))
  }

  /** Bit j of the result is the parity of the selected masks that have bit j. */
  lemma {:induction false} SelectedBit(start: nat, n: nat, masks: seq<nat>, k: nat, j: nat)
    requires k <= |masks|
    ensures Bit(Selected(start, n, masks, k), j) == (Bit(start, j) != Parity(n, masks, k, j))
  {
    if k > 0 {
      SelectedBit(start, n, masks, k - 1, j);
      XorBit(Selected(start, n, masks, k - 1), masks[k - 1], j);
    }
  }

  lemma {:induction false} SelectedBelow(start: nat, n: nat, masks: seq<nat>, k: nat)
    requires k <= |masks| && start < 0x1_0000 && forall i | 0 <= i < |masks| :: masks[i] < 0x1_0000
    ensures Selected(start, n, masks, k) < 0x1_0000
  {
    if k > 0 {
      SelectedBelow(start, n, masks, k - 1);
      Xor16(Selected(start, n, masks, k - 1), masks[k - 1]);
    }
  }

  lemma {:induction false} OneBit(a: nat, j: nat)
    ensures Bit(Pow2(a), j) == (j == a)
  {
    if j == 0 {
      assert a > 0 ==> Pow2(a) % 2 == 0;
    } else if a > 0 {
      OneBit(a - 1, j - 1);
    } else {
      NoBit(j - 1);
    }
  }

  lemma {:induction false} NoBit(j: nat)
    ensures !Bit(0, j)
  {
    if j > 0 { NoBit(j - 1); }
  }

  lemma {:induction false} TwoBits(a: nat, b: nat, j: nat)
    requires a < b
    ensures Bit(Pow2(a) + Pow2(b), j) == (j == a || j == b)
  {
    if j > 0 {
      if a > 0 {
        assert (Pow2(a) + Pow2(b)) / 2 == Pow2(a - 1) + Pow2(b - 1);
        TwoBits(a - 1, b - 1, j - 1);
      } else {
        assert (Pow2(a) + Pow2(b)) / 2 == Pow2(b - 1);
        OneBit(b - 1, j - 1);
      }
    }
  }

  lemma Powers()
    ensures Pow2(2) == 0x0004 && Pow2(3) == 0x0008 && Pow2(4) == 0x0010 && Pow2(5) == 0x0020 && Pow2(6) == 0x0040
    ensures Pow2(7) == 0x0080 && Pow2(8) == 0x0100 && Pow2(9) == 0x0200 && Pow2(10) == 0x0400 && Pow2(11) == 0x0800
    ensures Pow2(12) == 0x1000 && Pow2(13) == 0x2000 && Pow2(14) == 0x4000 && Pow2(15) == 0x8000
  {
  }

  /** Which coordinate bits of x reach address bit j. */
  lemma XParity(n: nat, j: nat)
    ensures Parity(n, RGBA8_X, 7, j) ==
      if j == 2 then Bit(n, 0) else if j == 3 then Bit(n, 1) else if j == 7 then Bit(n, 2)
      else if j == 8 then Bit(n, 3) else if j == 9 || j == 13 then Bit(n, 4) else if j == 11 then Bit(n, 5)
      else (j == 10 || j == 15) && Bit(n, 6)
  {
    var m := RGBA8_X;
    Powers();
    OneBit(2, j); OneBit(3, j); OneBit(7, j); OneBit(8, j); TwoBits(9, 13, j); OneBit(11, j); TwoBits(10, 15, j);
    assert Parity(n, m, 1, j) == (Bit(n, 0) && j == 2);
    assert Parity(n, m, 2, j) == (Parity(n, m, 1, j) != (Bit(n, 1) && j == 3));
    assert Parity(n, m, 3, j) == (Parity(n, m, 2, j) != (Bit(n, 2) && j == 7));
    assert Parity(n, m, 4, j) == (Parity(n, m, 3, j) != (Bit(n, 3) && j == 8));
    assert Parity(n, m, 5, j) == (Parity(n, m, 4, j) != (Bit(n, 4) && (j == 9 || j == 13)));
    assert Parity(n, m, 6, j) == (Parity(n, m, 5, j) != (Bit(n, 5) && j == 11));
  }

  lemma YParity(n: nat, j: nat)
    ensures Parity(n, RGBA8_Y, 7, j) ==
      if j == 4 then Bit(n, 0) else if j == 5 then Bit(n, 1) else if j == 6 then Bit(n, 2)
      else if j == 8 || j == 12 then Bit(n, 3) else if j == 9 then Bit(n, 4) else if j == 10 then Bit(n, 5)
      else (j == 11 || j == 14) && Bit(n, 6)
  {
    var m := RGBA8_Y;
    Powers();
    OneBit(4, j); OneBit(5, j); OneBit(6, j); TwoBits(8, 12, j); OneBit(9, j); OneBit(10, j); TwoBits(11, 14, j);
    assert Parity(n, m, 1, j) == (Bit(n, 0) && j == 4);
    assert Parity(n, m, 2, j) == (Parity(n, m, 1, j) != (Bit(n, 1) && j == 5));
    assert Parity(n, m, 3, j) == (Parity(n, m, 2, j) != (Bit(n, 2) && j == 6));
    assert Parity(n, m, 4, j) == (Parity(n, m, 3, j) != (Bit(n, 3) && (j == 8 || j == 12)));
    assert Parity(n, m, 5, j) == (Parity(n, m, 4, j) != (Bit(n, 4) && j == 9));
    assert Parity(n, m, 6, j) == (Parity(n, m, 5, j) != (Bit(n, 5) && j == 10));
  }

  /** Address bit j of texel (x, y) of a tile. */
  lemma LocalBit(x: nat, y: nat, j: nat)
    ensures Bit(LocalOffset(x, y), j) == (Parity(x % TILE, RGBA8_X, 7, j) != Parity(y % TILE, RGBA8_Y, 7, j))
  {
    SelectedBit(0, x % TILE, RGBA8_X, 7, j);
    SelectedBit(Selected(0, x % TILE, RGBA8_X, 7), y % TILE, RGBA8_Y, 7, j);
    NoBit(j);
  }

  lemma LocalInTile(x: nat, y: nat)
    ensures LocalOffset(x, y) < TILE_BYTES
  {
    SelectedBelow(0, x % TILE, RGBA8_X, 7);
    SelectedBelow(Selected(0, x % TILE, RGBA8_X, 7), y % TILE, RGBA8_Y, 7);
  }

  /** Which 4x8 microtile of its tile holds the microtile column and row with
      these bits. */
  function MicroCode(u0: bool, u1: bool, u2: bool, u3: bool, u4: bool, w0: bool, w1: bool, w2: bool, w3: bool): nat {
    Code4(u0, u1 != w0, u2 != w1, u4 != w2) + 16 * Code4(u3 != w3, w0, u2, w3) + 256 * Num(u4)
  }

  /** The place of a microtile, its column and row read from bit z on. */
  function MicroAt(u: nat, w: nat, z: nat): nat {
    MicroCode(Bit(u, z), Bit(u, z + 1), Bit(u, z + 2), Bit(u, z + 3), Bit(u, z + 4),
              Bit(w, z), Bit(w, z + 1), Bit(w, z + 2), Bit(w, z + 3))
  }

  function Micro(u: nat, w: nat): nat { MicroAt(u, w, 0) }

  lemma Code4Injective(a: bool, b: bool, c: bool, d: bool, a': bool, b': bool, c': bool, d': bool)
    ensures Code4(a, b, c, d) < 16
    ensures Code4(a, b, c, d) == Code4(a', b', c', d') ==> a == a' && b == b' && c == c' && d == d'
  {
  }

  lemma MicroCodeInjective(u0: bool, u1: bool, u2: bool, u3: bool, u4: bool, w0: bool, w1: bool, w2: bool, w3: bool,
      v0: bool, v1: bool, v2: bool, v3: bool, v4: bool, x0: bool, x1: bool, x2: bool, x3: bool)
    requires MicroCode(u0, u1, u2, u3, u4, w0, w1, w2, w3) == MicroCode(v0, v1, v2, v3, v4, x0, x1, x2, x3)
    ensures u0 == v0 && u1 == v1 && u2 == v2 && u3 == v3 && u4 == v4 && w0 == x0 && w1 == x1 && w2 == x2 && w3 == x3
  {
    Code4Injective(u0, u1 != w0, u2 != w1, u4 != w2, v0, v1 != x0, v2 != x1, v4 != x2);
    Code4Injective(v0, v1 != x0, v2 != x1, v4 != x2, u0, u1 != w0, u2 != w1, u4 != w2);
    Code4Injective(u3 != w3, w0, u2, w3, v3 != x3, x0, v2, x3);
    Code4Injective(v3 != x3, x0, v2, x3, u3 != w3, w0, u2, w3);
    SplitSum(Code4(u0, u1 != w0, u2 != w1, u4 != w2), Code4(u3 != w3, w0, u2, w3), Num(u4),
             Code4(v0, v1 != x0, v2 != x1, v4 != x2), Code4(v3 != x3, x0, v2, x3), Num(v4));
  }

  lemma SplitSum(a: nat, b: nat, c: nat, a': nat, b': nat, c': nat)
    requires a < 16 && b < 16 && a' < 16 && b' < 16 && a + 16 * b + 256 * c == a' + 16 * b' + 256 * c'
    ensures a == a' && b == b' && c == c'
  {
  }

  /** An address whose bits are XORs of the seven bits of each coordinate. */
  predicate Spread(n: nat, a: seq<bool>, b: seq<bool>)
    requires |a| == 7 && |b| == 7
  {
    n == Code4(false, false, a[0], a[1]) + 16 * Code4(b[0], b[1], b[2], a[2])
      + 256 * Code4(a[3] != b[3], a[4] != b[4], a[6] != b[5], a[5] != b[6]) + 4096 * Code4(b[3], a[4], b[6], a[6])
  }

  /** The sixteen address bits, regrouped: texel in row, row, microtile. */
  lemma Regroup(n: nat, a: seq<bool>, b: seq<bool>) returns (micro: nat, row: nat, texel: nat)
    requires |a| == 7 && |b| == 7 && Spread(n, a, b)
    ensures micro == MicroCode(a[2], a[3], a[4], a[5], a[6], b[3], b[4], b[5], b[6])
    ensures row == Code4(b[0], b[1], b[2], false) && texel == Code4(a[0], a[1], false, false)
    ensures n == 128 * micro + 16 * row + 4 * texel
  {
    micro, row, texel := MicroCode(a[2], a[3], a[4], a[5], a[6], b[3], b[4], b[5], b[6]),
      Code4(b[0], b[1], b[2], false), Code4(a[0], a[1], false, false);
  }

  lemma LowTwo(n: nat, z: nat)
    requires z == 0
    ensures n % 4 == Code4(Bit(n, z), Bit(n, z + 1), false, false)
  {
    Halves(n); Halves(n / 2); Quarter(n);
    assert Bit(n, z + 1) == Bit(n / 2, z);
  }

  lemma Above2(n: nat, k: nat)
    ensures Bit(n / 4, k) == Bit(n, k + 2)
  {
    Quarter(n);
    assert Bit(n, k + 2) == Bit(n / 2, k + 1) == Bit(n / 2 / 2, k);
  }

  lemma Above3(n: nat, k: nat)
    ensures Bit(n / 8, k) == Bit(n, k + 3)
  {
    Above2(n, k + 1);
    Quarter(n);
    assert Bit(n / 4, k + 1) == Bit(n / 4 / 2, k);
  }

  lemma LowThree(n: nat, z: nat)
    requires z == 0
    ensures n % 8 == Code4(Bit(n, z), Bit(n, z + 1), Bit(n, z + 2), false)
  {
    LowTwo(n, z); Halves(n / 4); Quarter(n); Above2(n, z);
  }

  /** The seven bits of a coordinate inside its tile, lowest first. */
  predicate Seven(n: nat, bits: seq<bool>) {
    |bits| == 7 && forall i | 0 <= i < 7 :: bits[i] == Bit(n, i)
  }

  lemma Bits0to3(x: nat, y: nat, z: nat, a: seq<bool>, b: seq<bool>)
    requires z == 0 && Seven(x % TILE, a) && Seven(y % TILE, b)
    ensures Nib(LocalOffset(x, y), z) == Code4(false, false, a[0], a[1])
  {
    LocalBit(x, y, z); LocalBit(x, y, z + 1); LocalBit(x, y, z + 2); LocalBit(x, y, z + 3);
    XParity(x % TILE, z); XParity(x % TILE, z + 1); XParity(x % TILE, z + 2); XParity(x % TILE, z + 3);
    YParity(y % TILE, z); YParity(y % TILE, z + 1); YParity(y % TILE, z + 2); YParity(y % TILE, z + 3);
  }

  lemma Bits4to7(x: nat, y: nat, z: nat, a: seq<bool>, b: seq<bool>)
    requires z == 0 && Seven(x % TILE, a) && Seven(y % TILE, b)
    ensures Nib(LocalOffset(x, y), z + 4) == Code4(b[0], b[1], b[2], a[2])
  {
    LocalBit(x, y, z + 4); LocalBit(x, y, z + 5); LocalBit(x, y, z + 6); LocalBit(x, y, z + 7);
    XParity(x % TILE, z + 4); XParity(x % TILE, z + 5); XParity(x % TILE, z + 6); XParity(x % TILE, z + 7);
    YParity(y % TILE, z + 4); YParity(y % TILE, z + 5); YParity(y % TILE, z + 6); YParity(y % TILE, z + 7);
  }

  lemma Bits8to11(x: nat, y: nat, z: nat, a: seq<bool>, b: seq<bool>)
    requires z == 0 && Seven(x % TILE, a) && Seven(y % TILE, b)
    ensures Nib(LocalOffset(x, y), z + 8) == Code4(a[3] != b[3], a[4] != b[4], a[6] != b[5], a[5] != b[6])
  {
    LocalBit(x, y, z + 8); LocalBit(x, y, z + 9); LocalBit(x, y, z + 10); LocalBit(x, y, z + 11);
    XParity(x % TILE, z + 8); XParity(x % TILE, z + 9); XParity(x % TILE, z + 10); XParity(x % TILE, z + 11);
    YParity(y % TILE, z + 8); YParity(y % TILE, z + 9); YParity(y % TILE, z + 10); YParity(y % TILE, z + 11);
  }

  lemma Bits12to15(x: nat, y: nat, z: nat, a: seq<bool>, b: seq<bool>)
    requires z == 0 && Seven(x % TILE, a) && Seven(y % TILE, b)
    ensures Nib(LocalOffset(x, y), z + 12) == Code4(b[3], a[4], b[6], a[6])
  {
    LocalBit(x, y, z + 12); LocalBit(x, y, z + 13); LocalBit(x, y, z + 14); LocalBit(x, y, z + 15);
    XParity(x % TILE, z + 12); XParity(x % TILE, z + 13); XParity(x % TILE, z + 14); XParity(x % TILE, z + 15);
    YParity(y % TILE, z + 12); YParity(y % TILE, z + 13); YParity(y % TILE, z + 14); YParity(y % TILE, z + 15);
  }

  lemma MicroOf(n: nat, m: nat, z: nat, a: seq<bool>, b: seq<bool>)
    requires z == 0 && Seven(n, a) && Seven(m, b)
    ensures MicroAt(n / 4, m / 8, z) == MicroCode(a[2], a[3], a[4], a[5], a[6], b[3], b[4], b[5], b[6])
  {
    Above2(n, z); Above2(n, z + 1); Above2(n, z + 2); Above2(n, z + 3); Above2(n, z + 4);
    Above3(m, z); Above3(m, z + 1); Above3(m, z + 2); Above3(m, z + 3);
  }

  lemma RowAndTexel(n: nat, m: nat, z: nat, a: seq<bool>, b: seq<bool>)
    requires z == 0 && Seven(n, a) && Seven(m, b)
    ensures m % 8 == Code4(b[0], b[1], b[2], false) && n % 4 == Code4(a[0], a[1], false, false)
  {
    LowTwo(n, z);
    LowThree(m, z);
  }

  lemma LocalSpread(x: nat, y: nat, z: nat, a: seq<bool>, b: seq<bool>)
    requires z == 0 && Seven(x % TILE, a) && Seven(y % TILE, b)
    ensures Spread(LocalOffset(x, y), a, b)
  {
    LocalInTile(x, y);
    Sixteen(LocalOffset(x, y), z);
    Bits0to3(x, y, z, a, b);
    Bits4to7(x, y, z, a, b);
    Bits8to11(x, y, z, a, b);
    Bits12to15(x, y, z, a, b);
  }

  lemma LocalIsMicroAt(x: nat, y: nat, z: nat, a: seq<bool>, b: seq<bool>)
    requires z == 0 && Seven(x % TILE, a) && Seven(y % TILE, b)
    ensures LocalOffset(x, y) == 128 * MicroAt(x % TILE / 4, y % TILE / 8, z) + 16 * (y % TILE % 8) + 4 * (x % TILE % 4)
  {
    LocalSpread(x, y, z, a, b);
    var micro, row, texel := Regroup(LocalOffset(x, y), a, b);
    assert micro == MicroAt(x % TILE / 4, y % TILE / 8, z) by { MicroOf(x % TILE, y % TILE, z, a, b); }
    assert row == y % TILE % 8 && texel == x % TILE % 4 by { RowAndTexel(x % TILE, y % TILE, z, a, b); }
  }

  /** A local offset is a 128-byte microtile, an eight-row line in it and a texel
      in that line: microtiles and their four-texel rows are contiguous. */
  lemma LocalIsMicro(x: nat, y: nat)
    ensures LocalOffset(x, y) == 128 * Micro(x % TILE / 4, y % TILE / 8) + 16 * (y % TILE % 8) + 4 * (x % TILE % 4)
  {
    var a, b := seq(7, i requires 0 <= i < 7 => Bit(x % TILE, i)), seq(7, i requires 0 <= i < 7 => Bit(y % TILE, i));
    LocalIsMicroAt(x, y, 0, a, b);
  }

  lemma FiveBits(n: nat, z: nat)
    requires z == 0 && n < 32
    ensures n == Nib(n, z) + 16 * Num(Bit(n, z + 4))
  {
    Above4(n, z);
    Halves(n / 16);
    assert n / 16 == Num(Bit(n / 16, z));
    Nibble(n, z);
  }

  /** Different microtiles of a tile have different places in it. */
  lemma MicroInjective(u: nat, w: nat, u': nat, w': nat)
    requires u < 32 && u' < 32 && w < 16 && w' < 16 && Micro(u, w) == Micro(u', w')
    ensures u == u' && w == w'
  {
    MicroAtInjective(u, w, u', w', 0);
  }

  lemma MicroAtInjective(u: nat, w: nat, u': nat, w': nat, z: nat)
    requires z == 0 && u < 32 && u' < 32 && w < 16 && w' < 16 && MicroAt(u, w, z) == MicroAt(u', w', z)
    ensures u == u' && w == w'
  {
    MicroCodeInjective(Bit(u, z), Bit(u, z + 1), Bit(u, z + 2), Bit(u, z + 3), Bit(u, z + 4),
      Bit(w, z), Bit(w, z + 1), Bit(w, z + 2), Bit(w, z + 3),
      Bit(u', z), Bit(u', z + 1), Bit(u', z + 2), Bit(u', z + 3), Bit(u', z + 4),
      Bit(w', z), Bit(w', z + 1), Bit(w', z + 2), Bit(w', z + 3));
    SameBitsSameNumber(u, u', z);
    SameBitsSameNumber(w, w', z);
  }

  lemma SameBitsSameNumber(n: nat, m: nat, z: nat)
    requires z == 0 && n < 32 && m < 32
    requires Nib(n, z) == Nib(m, z) && (Bit(n, z + 4) == Bit(m, z + 4) || (n < 16 && m < 16))
    ensures n == m
  {
    FiveBits(n, z);
    FiveBits(m, z);
    if n < 16 && m < 16 { Nibble(n, z); Nibble(m, z); }
  }

  lemma MicroBelow(u: nat, w: nat)
    ensures Micro(u, w) < 512
  {
  }

  // ----- every slot of a tile is used

  lemma BitsOfCode(n: nat, z: nat, a: bool, b: bool, c: bool, d: bool, e: bool)
    requires z == 0 && n == Code4(a, b, c, d) + 16 * Num(e)
    ensures Bit(n, z) == a && Bit(n, z + 1) == b && Bit(n, z + 2) == c && Bit(n, z + 3) == d && Bit(n, z + 4) == e
  {
    var h, q := n / 2, n / 2 / 2;
    var o := q / 2;
    assert Bit(n, z + 1) == Bit(h, z) && Bit(n, z + 2) == Bit(h, z + 1) == Bit(q, z);
    assert Bit(n, z + 3) == Bit(h, z + 2) == Bit(q, z + 1) == Bit(o, z);
    Above4(n, z);
    Quarter(n);
    assert n / 16 == Num(e);
  }

  lemma PlaceOfBits(c0: bool, c1: bool, c2: bool, c3: bool, c4: bool, c5: bool, c6: bool, c7: bool, c8: bool)
    ensures MicroCode(c0, c1 != c5, c6, c4 != c7, c8, c5, c2 != c6, c3 != c8, c7)
            == Code4(c0, c1, c2, c3) + 16 * Code4(c4, c5, c6, c7) + 256 * Num(c8)
  {
    assert ((c1 != c5) != c5) == c1 && ((c2 != c6) != c6) == c2 && ((c3 != c8) != c8) == c3 && ((c4 != c7) != c7) == c4;
    hide Code4, Num;
  }

  lemma NineBits(m: nat, z: nat)
    requires m < 512 && z == 0
    ensures m == Nib(m, z) + 16 * Nib(m / 16, z) + 256 * Num(m / 16 / 16 == 1)
  {
    hide Nib, Bit, Code4;
    var k := m / 16;
    var h := k / 16;
    Nibble(m, z);
    Nibble(k, z);
    assert h == Num(h == 1);
  }

  lemma NumberOf(a: bool, b: bool, c: bool, d: bool, e: bool, z: nat) returns (n: nat)
    requires z == 0
    ensures Bit(n, z) == a && Bit(n, z + 1) == b && Bit(n, z + 2) == c && Bit(n, z + 3) == d && Bit(n, z + 4) == e
    ensures n < 32 && (!e ==> n < 16)
  {
    n := Code4(a, b, c, d) + 16 * Num(e);
    BitsOfCode(n, z, a, b, c, d, e);
  }

  /** Every one of the 512 places of a tile is some microtile's. */
  lemma MicroSurjective(m: nat, z: nat) returns (u: nat, w: nat)
    requires m < 512 && z == 0
    ensures u < 32 && w < 16 && MicroAt(u, w, z) == m
  {
    hide Bit, MicroCode, Code4;
    var k := m / 16;
    var c0, c1, c2, c3 := Bit(m, z), Bit(m, z + 1), Bit(m, z + 2), Bit(m, z + 3);
    var c4, c5, c6, c7 := Bit(k, z), Bit(k, z + 1), Bit(k, z + 2), Bit(k, z + 3);
    var c8 := k / 16 == 1;
    NineBits(m, z);
    PlaceOfBits(c0, c1, c2, c3, c4, c5, c6, c7, c8);
    u := NumberOf(c0, c1 != c5, c6, c4 != c7, c8, z);
    w := NumberOf(c5, c2 != c6, c3 != c8, c7, false, z);
  }

  lemma SlotParts(slot: nat, u: nat, w: nat, x: nat, y: nat)
    requires x == 4 * u + slot % 4 && y == 8 * w + slot % 32 / 4 && u < 32 && w < 16
    ensures x < TILE && y < TILE && x % TILE == x && y % TILE == y
    ensures x / 4 == u && x % 4 == slot % 4 && y / 8 == w && y % 8 == slot % 32 / 4
    ensures slot == 32 * (slot / 32) + 4 * (slot % 32 / 4) + slot % 4
  {
  }

  /** A tile is filled: every dword of its 64 KiB is a texel's, and by injectivity of
      just one. */
  lemma EverySlotIsTexel(slot: nat) returns (x: nat, y: nat)
    requires slot < 0x4000
    ensures x < TILE && y < TILE && LocalOffset(x, y) == 4 * slot
  {
    hide LocalOffset, MicroAt;
    var u, w := MicroSurjective(slot / 32, 0);
    x, y := 4 * u + slot % 4, 8 * w + slot % 32 / 4;
    SlotParts(slot, u, w, x, y);
    LocalIsMicro(x, y);
  }
}
