/** The older column-offset hex geometry (bak/hex_geometry.hpp, bak/hex_geometry.cpp):
    odd columns are shifted down by half a hex. */
module BakHexGeometry {
  import CInt
  import opened Wrappers
  import HexGeometry

  const HexHeight: int := 72
  const HexWidth: int := 54
  const HexSize: int := HexHeight

  /** `hex::DIRECTION`, with the out-of-range value the `switch` default catches. */
  datatype Direction = North | NorthEast | SouthEast | South | SouthWest | NorthWest | NullDirection

  function ColumnShift(x: int): int
  {
    if CInt.Mod(x, 2) == 1 then HexHeight / 2 else 0
  }

  /** `tile_pixel_x`: columns are 54 pixels apart. */
  function TilePixelX(l: HexGeometry.Loc): (px: int)
    ensures px == 54 * l.x
  {
    l.x * HexWidth
  }

  /** `tile_pixel_y`: rows are 72 pixels apart, odd columns half a hex lower. */
  function TilePixelY(l: HexGeometry.Loc): (py: int)
    ensures l.x >= 0 ==> py == 72 * l.y + (if l.x % 2 == 1 then 36 else 0)
  {
    CInt.DivModProperties(l.x, 2);
    l.y * HexHeight + ColumnShift(l.x)
  }

  /** `pixel_pos_to_loc`: the column is the pixel column over 54; on odd columns half a
      hex is taken off the pixel row before dividing by 72. */
  function PixelPosToLoc(px: int, py: int): (l: HexGeometry.Loc)
    ensures l.x == CInt.Div(px, HexWidth)
    ensures l.y == CInt.Div(py - ColumnShift(l.x), HexHeight)
  {
    var xpos := CInt.Div(px, HexWidth);
    var ypos := CInt.Div(py - ColumnShift(xpos), HexHeight);
    HexGeometry.Loc(xpos, ypos)
  }

  lemma DivExact(k: int)
    ensures CInt.Div(k * HexHeight, HexHeight) == k
    ensures CInt.Div(k * HexWidth, HexWidth) == k
  {
  }

  /** `pixel_pos_to_loc` inverts `tile_pixel_x`/`tile_pixel_y` on every location. */
  lemma PixelOriginRoundTrip(l: HexGeometry.Loc)
    ensures PixelPosToLoc(TilePixelX(l), TilePixelY(l)) == l
  {
    DivExact(l.x);
    assert TilePixelY(l) - ColumnShift(l.x) == l.y * HexHeight;
    DivExact(l.y);
  }

  /** `tile_corner_pixel_xy`: the corner of `loc` in direction `dir` is the left or right
      corner (`on_left`) of the hex `adj` at half its height, where `adj` is `loc` itself
      for SOUTH_EAST and NORTH_WEST and a neighbour otherwise. `step` stands for
      `tile_in_direction`, which is not part of this model. */
  function TileCornerPixel(step: (HexGeometry.Loc, Direction) -> HexGeometry.Loc,
                           l: HexGeometry.Loc, dir: Direction): (r: Result<(int, int)>)
    ensures r.Fail? <==> dir == NullDirection
    ensures dir == SouthEast ==> r == Ok((TilePixelX(l) + HexSize, TilePixelY(l) + HexHeight / 2))
    ensures dir == NorthWest ==> r == Ok((TilePixelX(l), TilePixelY(l) + HexHeight / 2))
    ensures dir == North ==>
      r == Ok((TilePixelX(step(l, NorthWest)) + HexSize, TilePixelY(step(l, NorthWest)) + HexHeight / 2))
    ensures dir == South ==>
      r == Ok((TilePixelX(step(l, SouthEast)), TilePixelY(step(l, SouthEast)) + HexHeight / 2))
    ensures dir == NorthEast ==>
      r == Ok((TilePixelX(step(l, NorthEast)), TilePixelY(step(l, NorthEast)) + HexHeight / 2))
    ensures dir == SouthWest ==>
      r == Ok((TilePixelX(step(l, SouthWest)) + HexSize, TilePixelY(step(l, SouthWest)) + HexHeight / 2))
  {
    var choice: Option<(HexGeometry.Loc, bool)> :=
      match dir
      case North => Some((step(l, NorthWest), false))
      case NorthEast => Some((step(l, NorthEast), true))
      case SouthEast => Some((l, false))
      case South => Some((step(l, SouthEast), true))
      case SouthWest => Some((step(l, SouthWest), false))
      case NorthWest => Some((l, true))
      case NullDirection => None;
    if choice.None? then Fail("assertion failed: unknown direction")
    else
      var (adj, onLeft) := choice.value;
      Ok((TilePixelX(adj) + (if onLeft then 0 else HexSize), TilePixelY(adj) + HexHeight / 2))
  }
}
