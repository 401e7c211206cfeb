/** Unit-centred board queries (src/unit_utils.cpp): the path-cost callbacks a unit's
    movement uses, and a unit's protection on its tile. Hex adjacency and the path
    search that calls these are not part of this model. */
module UnitUtils {
  import opened Wrappers
  import opened HexGeometry
  import opened Tiles
  import opened Boards
  import MovementType
  import Units

  /** The terrain id of the tile `get_tile` finds at `l`: nothing when there is no tile;
      a tile whose terrain is null is dereferenced, which fails. */
  function TerrainIdAt(board: Board, l: Loc): (r: Result<Option<string>>)
    reads board
    requires board.Valid()
    ensures r == Ok(None) <==> board.GetTile(l).None?
    ensures r.Fail? <==> board.GetTile(l).Some? && board.tiles[board.GetTile(l).value].terrain.None?
    ensures r.Ok? && r.value.Some? ==>
              board.GetTile(l).Some? && board.tiles[board.GetTile(l).value].terrain.Some?
              && r.value.value == board.tiles[board.GetTile(l).value].terrain.value.id
  {
    match board.GetTile(l)
    case None => Ok(None)
    case Some(i) =>
      if board.tiles[i].terrain.None? then Fail("null terrain")
      else Ok(Some(board.tiles[i].terrain.value.id))
  }

  /** Whether a unit stands at `a`, given the locations of the game's units. */
  predicate Occupied(unitLocs: seq<Loc>, a: Loc)
  {
    a in unitLocs
  }

  /** `movement_cost(a, b)`: -1 when there is no tile at the destination, otherwise what
      the unit's movement type (`mt`) charges for the destination's terrain. */
  function MovementCost(board: Board, mt: MovementType.MoveType, a: Loc, b: Loc): (r: Result<int>)
    reads board
    requires board.Valid()
    ensures board.GetTile(b).None? ==> r == Ok(-1)
    ensures r.Fail? <==> TerrainIdAt(board, b).Fail?
    ensures TerrainIdAt(board, b).Ok? && TerrainIdAt(board, b).value.Some? ==>
              r == Ok(MovementType.GetEntry(mt, TerrainIdAt(board, b).value.value).cost)
  {
    match TerrainIdAt(board, b)
    case Fail(why) => Fail(why)
    case Ok(None) => Ok(-1)
    case Ok(Some(id)) => Ok(MovementType.MovementCost(mt, id))
  }

  /** `allowed_to_move(a)`: not onto another unit, not off the board, and only onto a
      terrain the movement type does not forbid (a negative cost). */
  function AllowedToMove(board: Board, unitLocs: seq<Loc>, mt: MovementType.MoveType, a: Loc): (r: Result<bool>)
    reads board
    requires board.Valid()
    ensures Occupied(unitLocs, a) ==> r == Ok(false)
    ensures !Occupied(unitLocs, a) && board.GetTile(a).None? ==> r == Ok(false)
  {
    if Occupied(unitLocs, a) then Ok(false)
    else match TerrainIdAt(board, a)
      case Fail(why) => Fail(why)
      case Ok(None) => Ok(false)
      case Ok(Some(id)) => Ok(MovementType.MovementCost(mt, id) >= 0)
  }

  /** `legal_move_endpoint(a)`: the hex is free. */
  predicate LegalMoveEndpoint(unitLocs: seq<Loc>, a: Loc)
  {
    !Occupied(unitLocs, a)
  }

  /** A hex the unit may move into is a legal endpoint, and the unit may move into a
      free hex exactly when stepping into it from anywhere has a known, non-negative
      cost; both agree on when the board's terrain is unreadable. */
  lemma AllowedAgreesWithCost(board: Board, unitLocs: seq<Loc>, mt: MovementType.MoveType, from: Loc, a: Loc)
    requires board.Valid()
    ensures AllowedToMove(board, unitLocs, mt, a) == Ok(true) ==> LegalMoveEndpoint(unitLocs, a)
    ensures LegalMoveEndpoint(unitLocs, a) ==>
              (AllowedToMove(board, unitLocs, mt, a) == Ok(true) <==>
               MovementCost(board, mt, from, a).Ok? && MovementCost(board, mt, from, a).value >= 0
               && board.GetTile(a).Some?)
    ensures LegalMoveEndpoint(unitLocs, a) ==>
              (AllowedToMove(board, unitLocs, mt, a).Fail? <==> MovementCost(board, mt, from, a).Fail?)
  {
  }

  /** `unit_protection`: the unit's effective armour, plus the movement type's armour
      modifier for the terrain it stands on when it stands on a tile. */
  function UnitProtection(board: Board, u: Units.Unit, mt: MovementType.MoveType): (r: Result<int>)
    reads board, u
    requires board.Valid()
    ensures board.GetTile(u.loc).None? ==> r == Ok(u.Effective(Units.Armor))
    ensures r.Fail? <==> TerrainIdAt(board, u.loc).Fail?
    ensures TerrainIdAt(board, u.loc).Ok? && TerrainIdAt(board, u.loc).value.Some? ==>
              r == Ok(u.Effective(Units.Armor) + MovementType.GetEntry(mt, TerrainIdAt(board, u.loc).value.value).armor)
  {
    var result := u.Effective(Units.Armor);
    match TerrainIdAt(board, u.loc)
    case Fail(why) => Fail(why)
    case Ok(None) => Ok(result)
    case Ok(Some(id)) => Ok(result + MovementType.ArmorModification(mt, id))
  }

  /** On a terrain the movement type does not list, protection is the bare armour. */
  lemma ProtectionOnUnlistedTerrain(board: Board, u: Units.Unit, mt: MovementType.MoveType)
    requires board.Valid()
    requires TerrainIdAt(board, u.loc).Ok? && TerrainIdAt(board, u.loc).value.Some?
    requires TerrainIdAt(board, u.loc).value.value !in mt.entries
    ensures UnitProtection(board, u, mt) == Ok(u.Effective(Units.Armor))
  {
  }
}
