/** The game board as `game` stores it (src/game.cpp): a row-major vector of tiles
    behind `get_tile`, which answers only once the game has started and only for
    locations on the board. */
module Boards {
  import opened Wrappers
  import opened HexGeometry
  import opened Tiles

  /** The position of an on-board location in the row-major tile vector. */
  function Index(l: Loc, width: int): int
  {
    l.y * width + l.x
  }

  predicate OnBoard(l: Loc, width: int, height: int)
  {
    0 <= l.x < width && 0 <= l.y < height
  }

  /** On-board locations occupy distinct, in-range positions. */
  lemma IndexInRange(l: Loc, width: int, height: int)
    requires OnBoard(l, width, height)
    ensures 0 <= Index(l, width) < width * height
  {
    assert l.y * width <= (height - 1) * width;
  }

  lemma IndexInjective(a: Loc, b: Loc, width: int, height: int)
    requires OnBoard(a, width, height) && OnBoard(b, width, height)
    requires Index(a, width) == Index(b, width)
    ensures a == b
  {
    if a.y < b.y {
      RowsApart(a.y, b.y, width);
    } else if b.y < a.y {
      RowsApart(b.y, a.y, width);
    }
  }

  lemma Distrib(p: int, w: int)
    ensures (p + 1) * w == p * w + w
  {
  }

  /** A later row starts at least a full row further on. */
  lemma {:induction false} RowsApart(p: int, q: int, w: int)
    requires p < q && w >= 0
    ensures p * w + w <= q * w
    decreases q - p
  {
    Distrib(p, w);
    if p + 1 < q {
      RowsApart(p + 1, q, w);
    }
  }

  class Board {
    var started: bool
    var width: int
    var height: int
    var tiles: seq<Tile>

    /** The invariant the loader's `ASSERT_EQ(width*height, tiles.size())` and the
        setup establish. */
    ghost predicate Valid()
      reads this
    {
      0 <= width && 0 <= height && |tiles| == width * height
    }

    constructor ()
      ensures !started && width == 0 && height == 0 && tiles == []
      ensures Valid()
    {
      started := false;
      width := 0;
      height := 0;
      tiles := [];
    }

    /** `get_tile(x, y)`: nothing before the game starts or off the board, otherwise
        the position of the tile at (x, y). */
    function GetTile(l: Loc): (r: Option<nat>)
      reads this
      requires Valid()
      ensures r.Some? <==> started && OnBoard(l, width, height)
      ensures r.Some? ==> r.value == Index(l, width) && r.value < |tiles|
    {
      if !started || !OnBoard(l, width, height) then None
      else
        IndexInRange(l, width, height);
        Some(l.y * width + l.x)
    }
  }
}
