/** Where the texels of a whole surface lie, in four-byte steps. */
module TexelMap {
  import opened Words
  import opened ColorDetile

  /** Cell (i, j) of a grid, numbered row by row. */
  function Cell(i: nat, j: nat, across: nat): nat { i * across + j }

  /** The 128-byte block that holds microtile column u and row w. */
  function Block(u: nat, w: nat, across: nat): nat {
    512 * Cell(w / 16, u / 32, across) + Micro(u % 32, w % 16)
  }

  /** The dword of texel (x, y), counted from the start of the surface. */
  function Dword(x: nat, y: nat, width: nat): nat {
    32 * Block(x / 4, y / 8, TilesAcross(width)) + 4 * (y % 8) + x % 4
  }

  lemma OffsetIsDword(x: nat, y: nat, width: nat)
    ensures Offset(x, y, width).Some? ==> Offset(x, y, width).value == 4 * Dword(x, y, width)
  {
    LocalIsMicro(x, y);
    assert x / TILE == x / 4 / 32 && x % TILE / 4 == x / 4 % 32 && x % TILE % 4 == x % 4 by { SplitX(x); }
    assert y / TILE == y / 8 / 16 && y % TILE / 8 == y / 8 % 16 && y % TILE % 8 == y % 8 by { SplitY(y); }
  }

  lemma SplitX(x: nat)
    ensures x / 128 == x / 4 / 32 && x % 128 / 4 == x / 4 % 32 && x % 128 % 4 == x % 4
  {
  }

  lemma SplitY(y: nat)
    ensures y / 128 == y / 8 / 16 && y % 128 / 8 == y / 8 % 16 && y % 128 % 8 == y % 8
  {
  }

  lemma CellInjective(across: nat, i: nat, j: nat, i': nat, j': nat)
    requires j < across && j' < across
    ensures Cell(i, j, across) == Cell(i', j', across) ==> i == i' && j == j'
  {
    if i < i' {
      assert (i + 1) * across <= i' * across;
    } else if i' < i {
      assert (i' + 1) * across <= i * across;
    }
  }

  lemma BlockInjective(u: nat, w: nat, u': nat, w': nat, across: nat)
    requires u / 32 < across && u' / 32 < across && Block(u, w, across) == Block(u', w', across)
    ensures u == u' && w == w'
  {
    var i, i' := Cell(w / 16, u / 32, across), Cell(w' / 16, u' / 32, across);
    var m, m' := Micro(u % 32, w % 16), Micro(u' % 32, w' % 16);
    assert m < 512 && m' < 512 by { MicroBelow(u % 32, w % 16); MicroBelow(u' % 32, w' % 16); }
    assert 512 * i + m == 512 * i' + m';
    assert i == i' && m == m';
    CellInjective(across, w / 16, u / 32, w' / 16, u' / 32);
    MicroInjective(u % 32, w % 16, u' % 32, w' % 16);
  }

  lemma InTiles(x: nat, width: nat)
    requires x < width
    ensures x / 4 / 32 < TilesAcross(width)
  {
    SplitX(x);
  }

  /** Different texels of a surface lie at different dwords. */
  lemma DwordInjective(x: nat, y: nat, x': nat, y': nat, width: nat)
    requires x < width && x' < width && Dword(x, y, width) == Dword(x', y', width)
    ensures x == x' && y == y'
  {
    InTiles(x, width);
    InTiles(x', width);
    var b, b' := Block(x / 4, y / 8, TilesAcross(width)), Block(x' / 4, y' / 8, TilesAcross(width));
    assert b == b' && y % 8 == y' % 8 && x % 4 == x' % 4;
    BlockInjective(x / 4, y / 8, x' / 4, y' / 8, TilesAcross(width));
  }

  lemma CellBelow(i: nat, j: nat, across: nat, down: nat)
    requires i < down && j < across
    ensures i * across + j + 1 <= across * down
  {
    assert (i + 1) * across <= down * across;
    assert (i + 1) * across == i * across + across;
  }

  /** Every texel has an address, and the block it lies in is inside the surface. */
  lemma TexelInSurface(x: nat, y: nat, width: nat, height: nat)
    requires x < width && y < height && SurfaceSize(width, height).Some?
    ensures Offset(x, y, width).Some?
    ensures 128 * Block(x / 4, y / 8, TilesAcross(width)) + 128 <= SurfaceSize(width, height).value
  {
    var tx, ty := TilesAcross(width), TilesAcross(height);
    var i, j := y / TILE, x / TILE;
    SplitX(x);
    SplitY(y);
    assert i < ty && j < tx;
    CellBelow(i, j, tx, ty);
    assert y / TILE <= SIZE_MAX / tx by {
      assert i < ty <= SIZE_MAX / tx;
    }
    MicroBelow(x / 4 % 32, y / 8 % 16);
  }

  /** A texel has an address exactly when it is within the width and its tile ends
      below 2^64. */
  lemma OffsetIff(x: nat, y: nat, width: nat)
    ensures Offset(x, y, width).Some? <==>
      x < width && 0x1_0000 * (Cell(y / TILE, x / TILE, TilesAcross(width)) + 1) <= U64
  {
    hide LocalOffset;
    if x < width {
      TileRowFits(y / TILE, TilesAcross(width), Cell(y / TILE, x / TILE, TilesAcross(width)));
    }
  }

  /** The check of the tile row refuses nothing that the check of the tile allows. */
  lemma TileRowFits(row: nat, across: nat, index: nat)
    requires across > 0 && row * across <= index
    ensures index <= SIZE_MAX / 0x1_0000 ==> row <= SIZE_MAX / across
  {
    if index <= SIZE_MAX / 0x1_0000 {
      AtMost(row, SIZE_MAX, across);
      assert across * row == row * across;
    }
  }
}
