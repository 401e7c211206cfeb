/** The game messages the modelled code exchanges, as already-decoded values: the
    `play` node a card or ability produces, and the messages `game::handle_message`
    accepts. */
module Messages {
  import opened Wrappers
  import opened HexGeometry

  /** A `land` child of a `play` node: where the land goes and which terrain it is. */
  datatype LandChild = LandChild(loc: Loc, land: string)

  /** A `monster` child of a `play` node: where the monster appears and its type. */
  datatype MonsterChild = MonsterChild(loc: Loc, kind: string)

  /** A `play` node: the spell (card id), the caster's unit key when an ability is
      used, and the `target`, `land` and `monster` children in order. */
  datatype Play = Play(spell: string, caster: Option<int>, targets: seq<Loc>,
                       lands: seq<LandChild>, monsters: seq<MonsterChild>)

  /** A message to the game, by type. */
  datatype Incoming =
    | Setup
    | Spells(spells: string, resourceGain: seq<int>)
    | Move(from: Loc, to: Loc)
    | PlayCard(play: Play)
    | EndTurn(skip: bool)
}
