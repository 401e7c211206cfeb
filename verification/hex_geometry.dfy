/** Row-offset hex geometry of the current client and server (src/hex_geometry.hpp,
    src/hex_geometry.cpp): a hex's pixel origin and centre, and the hex under a pixel. */
module HexGeometry {
  import CInt

  /** `hex::location`: a column and a row. */
  datatype Loc = Loc(x: int, y: int)

  const HexHeight: int := 38
  const HexWidth: int := 60
  const HexSize: int := HexHeight

  /** Odd rows are shifted right by half a hex; C++ `%` makes negative odd rows unshifted. */
  function RowShift(y: int): int
  {
    if CInt.Mod(y, 2) == 1 then HexWidth / 2 else 0
  }

  /** `tile_pixel_x`. */
  function TilePixelX(l: Loc): (px: int)
    ensures l.y >= 0 ==> px == l.x * HexWidth + (if l.y % 2 == 1 then 30 else 0)
  {
    CInt.DivModProperties(l.y, 2);
    l.x * HexWidth + RowShift(l.y)
  }

  /** `tile_pixel_y`. */
  function TilePixelY(l: Loc): (py: int)
    ensures py == 38 * l.y
  {
    l.y * HexHeight
  }

  /** `tile_center_x`: the origin moved right by half a hex. */
  function TileCenterX(l: Loc): (cx: int)
    ensures cx == TilePixelX(l) + 30
  {
    TilePixelX(l) + HexWidth / 2
  }

  /** `tile_center_y`: the origin moved down by half a hex. */
  function TileCenterY(l: Loc): (cy: int)
    ensures cy == TilePixelY(l) + 19
  {
    TilePixelY(l) + HexHeight / 2
  }

  /** `pixel_pos_to_loc`: the row is the pixel row divided by the hex height; on odd
      rows half a hex is taken off the pixel column before dividing by the hex width.
      Both divisions truncate toward zero. */
  function PixelPosToLoc(px: int, py: int): (l: Loc)
    ensures l.y == CInt.Div(py, HexHeight)
    ensures l.x == CInt.Div(px - RowShift(l.y), HexWidth)
  {
    var ypos := CInt.Div(py, HexHeight);
    var xpos := CInt.Div(px - RowShift(ypos), HexWidth);
    Loc(xpos, ypos)
  }

  /** Truncating division of an exact multiple of a hex dimension gives the factor
      back, whatever its sign. */
  lemma DivExact(k: int)
    ensures CInt.Div(k * HexHeight, HexHeight) == k
    ensures CInt.Div(k * HexWidth, HexWidth) == k
  {
  }

  /** A hex's pixel origin maps back to the hex, for every location (negative ones too). */
  lemma PixelOriginRoundTrip(l: Loc)
    ensures PixelPosToLoc(TilePixelX(l), TilePixelY(l)) == l
  {
    DivExact(l.y);
    assert TilePixelX(l) - RowShift(l.y) == l.x * HexWidth;
    DivExact(l.x);
  }

  /** For x, y >= 0, a hex's centre pixel maps back to the hex. */
  lemma PixelCenterRoundTrip(l: Loc)
    requires l.x >= 0 && l.y >= 0
    ensures PixelPosToLoc(TileCenterX(l), TileCenterY(l)) == l
  {
    assert CInt.Div(38 * l.y + 19, 38) == l.y;
    assert TileCenterX(l) - RowShift(l.y) == l.x * 60 + 30;
    assert CInt.Div(l.x * 60 + 30, 60) == l.x;
  }

  /** The centre round trip does not extend to negative columns: the centre of (-1, 0)
      is pixel (-30, 19), which truncating division puts in column 0. */
  lemma PixelCenterNegativeColumn()
    ensures PixelPosToLoc(TileCenterX(Loc(-1, 0)), TileCenterY(Loc(-1, 0))) == Loc(0, 0)
  {
    assert TileCenterX(Loc(-1, 0)) == -30;
    assert CInt.Div(-30, 60) == 0;
  }
}
