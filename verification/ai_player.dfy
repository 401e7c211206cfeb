/** The computer player (src/ai_player.cpp): the cost check, the gating of `play()`
    with its end-turn fallback, and target selection. */
module AiPlayers {
  import opened Wrappers
  import opened HexGeometry
  import opened Messages

  /** `player_pay_cost`: walks the cost vector; an index the resource vector does not
      have, or a cost above the resource held, makes the cost unpayable. */
  method PlayerPayCost(cost: seq<int>, resources: seq<int>) returns (ok: bool)
    ensures ok <==> |cost| <= |resources| && forall n :: 0 <= n < |cost| ==> cost[n] <= resources[n]
  {
    var n := 0;
    while n != |cost|
      invariant 0 <= n <= |cost|
      invariant n <= |resources|
      invariant forall k :: 0 <= k < n ==> cost[k] <= resources[k]
    {
      if n >= |resources| || cost[n] > resources[n] {
        return false;
      }
      n := n + 1;
    }
    return true;
  }

  /** What the movement and spell heuristics decided on the AI's casting turn: nothing;
      a move with no usable ability after it; a move followed by an ability play; or a
      spell cast. */
  datatype Decision =
    | NoAction
    | MoveOnly(from: Loc, to: Loc)
    | MoveAndAbility(from: Loc, to: Loc, ability: Play)
    | CastSpell(spell: Play)

  /** The messages a decision contributes before the end-turn fallback. */
  function Actions(d: Decision): seq<Incoming>
  {
    match d
    case NoAction => []
    case MoveOnly(from, to) => [Move(from, to)]
    case MoveAndAbility(from, to, p) => [Move(from, to), PlayCard(p)]
    case CastSpell(p) => [PlayCard(p)]
  }

  /** Whether the AI ends its turn: only a move with no ability after it sets the flag. */
  predicate EndTurnFlag(d: Decision)
  {
    d.MoveOnly?
  }

  function CountEndTurns(msgs: seq<Incoming>): nat
  {
    if msgs == [] then 0 else (if msgs[0].EndTurn? then 1 else 0) + CountEndTurns(msgs[1..])
  }

  /** On its casting turn the AI answers with one end_turn exactly when it plays no card,
      the end_turn is the last message, and it is a skip exactly when nothing else is
      sent. */
  lemma CastingTurnAnswer(d: Decision, result: seq<Incoming>)
    requires result == Actions(d) + (if Actions(d) == [] || EndTurnFlag(d) then [EndTurn(Actions(d) == [])] else [])
    ensures result != []
    ensures CountEndTurns(result) == (if d.MoveAndAbility? || d.CastSpell? then 0 else 1)
    ensures CountEndTurns(result) == 1 ==> result[|result| - 1].EndTurn?
    ensures CountEndTurns(result) == 1 ==> (result[|result| - 1].skip <==> |result| == 1)
    ensures (exists i :: 0 <= i < |result| && result[i].PlayCard?) <==> d.MoveAndAbility? || d.CastSpell?
  {
    match d
    case NoAction =>
    case MoveOnly(from, to) =>
      assert result == [Move(from, to), EndTurn(false)];
      assert result[1..] == [EndTurn(false)];
    case MoveAndAbility(from, to, p) =>
      assert result == [Move(from, to), PlayCard(p)];
      assert result[1..] == [PlayCard(p)];
      assert result[1..][1..] == [];
      assert CountEndTurns(result[1..]) == 0;
      assert result[1].PlayCard?;
    case CastSpell(p) =>
      assert result[0].PlayCard?;
  }

  /** `default_ai_player`. */
  class AiPlayer {
    const playerId: int
    var setDeck: bool

    constructor (playerId: int)
      ensures this.playerId == playerId && !setDeck
    {
      this.playerId := playerId;
      setDeck := false;
    }

    /** `play()`: the first call only sends the deck (`deck`, read from deck.xml) and
        remembers that it did; afterwards nothing is sent unless the AI is the casting
        player; then the decision's messages are sent, followed by an end_turn when there
        are none (a skip) or when the decision was a move with nothing after it. */
    method Play(casting: int, deck: Incoming, d: Decision) returns (result: seq<Incoming>)
      modifies this
      ensures setDeck
      ensures !old(setDeck) ==> result == [deck]
      ensures old(setDeck) && casting != playerId ==> result == []
      ensures old(setDeck) && casting == playerId ==>
                result == Actions(d) + (if Actions(d) == [] || EndTurnFlag(d) then [EndTurn(Actions(d) == [])] else [])
    {
      result := [];
      if !setDeck {
        setDeck := true;
        result := result + [deck];
        return;
      }
      if casting != playerId {
        return;
      }
      var endTurn := false;
      match d {
        case NoAction =>
        case MoveOnly(from, to) =>
          result := result + [Move(from, to)];
          endTurn := true;
        case MoveAndAbility(from, to, p) =>
          result := result + [Move(from, to)];
          endTurn := true;
          result := result + [PlayCard(p)];
          endTurn := false;
        case CastSpell(p) =>
          result := result + [PlayCard(p)];
      }
      if result == [] || endTurn {
        result := result + [EndTurn(result == [])];
      }
    }
  }

  /** Where the scan over the tiles stops, and with what: the first valid tile's
      occupant decides; `unitAt` gives the side of the unit on a tile, if any. */
  function SelectLoc(tiles: seq<Loc>, valid: Loc -> bool, unitAt: Loc -> Option<int>, player: int)
    : (r: Result<Option<Loc>>)
    ensures r.Ok? && r.value.Some? ==> r.value.value in tiles && valid(r.value.value)
                                       && unitAt(r.value.value).Some? && unitAt(r.value.value).value != player
    ensures r == Ok(None) ==> forall l :: l in tiles && valid(l) ==> unitAt(l) == Some(player)
  {
    if tiles == [] then Ok(None)
    else if !valid(tiles[0]) then SelectLoc(tiles[1..], valid, unitAt, player)
    else if unitAt(tiles[0]).None? then Fail("null unit at a valid location")
    else if unitAt(tiles[0]).value != player then Ok(Some(tiles[0]))
    else SelectLoc(tiles[1..], valid, unitAt, player)
  }

  /** `player_select_loc`: the first valid tile holding a unit of another side, or the
      invalid location (`None`) when there is none. A valid tile with no unit on it is
      dereferenced as a null unit, which fails. */
  method PlayerSelectLoc(tiles: seq<Loc>, valid: Loc -> bool, unitAt: Loc -> Option<int>, player: int)
    returns (r: Result<Option<Loc>>)
    ensures r == SelectLoc(tiles, valid, unitAt, player)
    ensures r.Ok? && r.value.Some? ==>
              exists i :: 0 <= i < |tiles| && tiles[i] == r.value.value
                          && forall j :: 0 <= j < i && valid(tiles[j]) ==> unitAt(tiles[j]) == Some(player)
  {
    var n := 0;
    while n != |tiles|
      invariant 0 <= n <= |tiles|
      invariant SelectLoc(tiles, valid, unitAt, player) == SelectLoc(tiles[n..], valid, unitAt, player)
      invariant forall j :: 0 <= j < n && valid(tiles[j]) ==> unitAt(tiles[j]) == Some(player)
    {
      assert tiles[n..][1..] == tiles[n + 1..];
      var l := tiles[n];
      if valid(l) {
        var target := unitAt(l);
        if target.None? {
          return Fail("null unit at a valid location");
        }
        if target.value != player {
          return Ok(Some(l));
        }
      }
      n := n + 1;
    }
    return Ok(None);
  }
}
