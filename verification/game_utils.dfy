/** Board area helpers (src/game_utils.cpp): the flood fill that collects the connected
    area of one terrain around a hex, and the production of a tower that stands on a
    terrain of its resource. Hex adjacency (`get_adjacent_tiles`, not part of this
    model) is the parameter `adj`. */
module GameUtils {
  import opened Wrappers
  import opened HexGeometry
  import opened Terrains
  import opened Tiles
  import opened Boards

  /** Every location on a board of that size. */
  ghost function Cells(width: int, height: int): set<Loc>
  {
    set x: int, y: int | 0 <= x < width && 0 <= y < height :: Loc(x, y)
  }

  /** The tile `get_tile` gives for `l`, if any. */
  function TileAt(board: Board, l: Loc): (r: Option<Tile>)
    reads board
    requires board.Valid()
    ensures r.Some? <==> board.GetTile(l).Some?
    ensures r.Some? ==> r.value == board.tiles[Index(l, board.width)]
  {
    match board.GetTile(l)
    case None => None
    case Some(i) => Some(board.tiles[i])
  }

  /** `l` holds a tile whose terrain is `ter` (the same terrain object, or both null). */
  predicate HasTerrain(board: Board, l: Loc, ter: Option<Terrain>)
    reads board
    requires board.Valid()
  {
    TileAt(board, l).Some? && TileAt(board, l).value.terrain == ter
  }

  /** Every same-terrain neighbour of `m` that is on a tile is in `locs`. */
  predicate Closed(board: Board, adj: Loc -> seq<Loc>, m: Loc, locs: set<Loc>)
    reads board
    requires board.Valid()
  {
    TileAt(board, m).Some? &&
    forall a :: a in adj(m) && HasTerrain(board, a, TileAt(board, m).value.terrain) ==> a in locs
  }

  /** `terrain_area(g, loc, locs)`: with no tile at `loc`, 0 and `locs` unchanged;
      otherwise `loc` joins `locs` and so, recursively, does every neighbour of the same
      terrain that is not in `locs` yet. The result is the size of `locs` afterwards,
      which counts the locations the caller had already put there as well. What is
      added is `loc` and hexes of its terrain, and it is closed: every hex added has all
      its same-terrain neighbours in the set. */
  method TerrainArea(board: Board, loc: Loc, locs: set<Loc>, adj: Loc -> seq<Loc>) returns (size: int, area: set<Loc>)
    requires board.Valid()
    ensures TileAt(board, loc).None? ==> size == 0 && area == locs
    ensures TileAt(board, loc).Some? ==>
              size == |area| && locs <= area && loc in area
              && (forall m :: m in area - locs ==> HasTerrain(board, m, TileAt(board, loc).value.terrain))
              && (forall m :: m in area - locs ==> Closed(board, adj, m, area))
    decreases Cells(board.width, board.height) - locs - {loc}
  {
    var t := TileAt(board, loc);
    if t.None? {
      return 0, locs;
    }
    var ter := t.value.terrain;
    area := locs + {loc};
    var neighbours := adj(loc);
    var n := 0;
    while n != |neighbours|
      invariant 0 <= n <= |neighbours|
      invariant locs + {loc} <= area
      invariant forall m :: m in area - locs ==> HasTerrain(board, m, ter)
      invariant forall m :: m in area - locs - {loc} ==> Closed(board, adj, m, area)
      invariant forall i :: 0 <= i < n && HasTerrain(board, neighbours[i], ter) ==> neighbours[i] in area
    {
      var a := neighbours[n];
      if a !in area {
        var t2 := TileAt(board, a);
        if t2.Some? && t2.value.terrain == ter {
          ghost var before := area;
          assert a in Cells(board.width, board.height) by {
            assert a == Loc(a.x, a.y);
          }
          var _, grown := TerrainArea(board, a, area, adj);
          ClosedGrows(board, adj, before - locs - {loc}, before, grown);
          area := grown;
        }
      }
      n := n + 1;
    }
    size := |area|;
  }

  /** Closure is kept when the set grows. */
  lemma ClosedGrows(board: Board, adj: Loc -> seq<Loc>, ms: set<Loc>, small: set<Loc>, big: set<Loc>)
    requires board.Valid() && small <= big
    requires forall m :: m in ms ==> Closed(board, adj, m, small)
    ensures forall m :: m in ms ==> Closed(board, adj, m, big)
  {
  }

  /** `tower_resource_production`: nothing unless the tower's tile has a terrain producing
      `resource` (a null terrain is dereferenced, which fails); then one plus half the
      terrain area around the tower, the fill sharing the caller's `locs`. */
  method TowerResourceProduction(board: Board, tower: Loc, resource: int, locs: set<Loc>, adj: Loc -> seq<Loc>)
    returns (r: Result<int>, area: set<Loc>)
    requires board.Valid()
    ensures TileAt(board, tower).None? ==> r == Ok(0) && area == locs
    ensures TileAt(board, tower).Some? && TileAt(board, tower).value.terrain.None? ==> r.Fail?
    ensures TileAt(board, tower).Some? && TileAt(board, tower).value.terrain.Some? ==>
              var ter := TileAt(board, tower).value.terrain.value;
              (ter.resourceId != resource ==> r == Ok(0) && area == locs)
              && (ter.resourceId == resource ==> r == Ok(1 + |area| / 2) && locs + {tower} <= area && r.value >= 1)
  {
    var t := TileAt(board, tower);
    if t.None? {
      return Ok(0), locs;
    }
    if t.value.terrain.None? {
      return Fail("null terrain"), locs;
    }
    if t.value.terrain.value.resourceId != resource {
      return Ok(0), locs;
    }
    var amount;
    amount, area := TerrainArea(board, tower, locs, adj);
    r := Ok(1 + amount / 2);
  }
}
