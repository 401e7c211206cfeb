/** Cards (src/card.cpp): the cost vector, the card kinds `create` dispatches to,
    valid-target calculation, the attack damage rule, land placement with rollback,
    the deck text format and the summoning-hex rule. */
module Cards {
  import opened Wrappers
  import Text
  import Wml
  import opened Values
  import Resource
  import opened HexGeometry
  import opened Terrains
  import opened Tiles
  import opened Boards
  import opened Messages
  import Units

  // ---------------------------------------------------------------- cost

  /** The cost vector a cost string denotes: for each resource, in index order, how
      often its id character occurs in the string. */
  function CostOf(costStr: string): (cost: seq<int>)
    ensures |cost| == Resource.NumResources
    ensures forall n :: 0 <= n < Resource.NumResources ==> cost[n] == Text.Count(costStr, Resource.ResourceId(n))
  {
    seq(Resource.NumResources, n requires 0 <= n < Resource.NumResources => Text.Count(costStr, Resource.ResourceId(n)))
  }

  /** The constructor's cost loop: one count per resource, pushed in index order. */
  method BuildCost(costStr: string) returns (cost: seq<int>)
    ensures cost == CostOf(costStr)
  {
    cost := [];
    var n := 0;
    while n != Resource.NumResources
      invariant 0 <= n <= Resource.NumResources
      invariant |cost| == n
      invariant forall k :: 0 <= k < n ==> cost[k] == Text.Count(costStr, Resource.ResourceId(k))
    {
      cost := cost + [Text.Count(costStr, Resource.ResourceId(n))];
      n := n + 1;
    }
  }

  /** The total a cost vector charges over all resources. */
  function CostTotal(cost: seq<int>): int
    requires |cost| == Resource.NumResources
  {
    cost[0] + cost[1] + cost[2] + cost[3] + cost[4] + cost[5]
  }

  /** A cost string made only of resource ids costs one unit per character. */
  lemma {:induction false} CostOfTotal(costStr: string)
    requires forall i :: 0 <= i < |costStr| ==> costStr[i] in Resource.ResourceStr
    ensures CostTotal(CostOf(costStr)) == |costStr|
  {
    if costStr != [] {
      var rest := costStr[1..];
      CostOfTotal(rest);
      var c := costStr[0];
      var a, b := CostOf(costStr), CostOf(rest);
      forall n | 0 <= n < Resource.NumResources
        ensures a[n] == Indicator(c, n) + b[n]
      {
      }
      IndicatorTotal(c);
    }
  }

  /** 1 when `c` is the id of resource `n`, 0 otherwise. */
  function Indicator(c: char, n: nat): int
    requires n < Resource.NumResources
  {
    if c == Resource.ResourceId(n) then 1 else 0
  }

  /** A resource id is the id of exactly one resource. */
  lemma IndicatorTotal(c: char)
    requires c in Resource.ResourceStr
    ensures Indicator(c, 0) + Indicator(c, 1) + Indicator(c, 2) + Indicator(c, 3) + Indicator(c, 4) + Indicator(c, 5) == 1
  {
  }

  // ---------------------------------------------------------------- cards

  datatype CardKind =
    | Land(lands: seq<string>)
    | Monster(monster: string)
    | ModificationCard(damage: int, ntargets: int, range: int, mod: Units.Modification)
    | Attack(damage: int, range: int)
    | Dummy

  /** A card: its id, name, speed, whether it taps its caster, its cost vector, the text
      of its optional valid-targets formula, and what kind of card it is. */
  datatype Card = Card(id: string, name: string, speed: int, tapsCaster: bool, cost: seq<int>,
                       validTargets: Option<string>, kind: CardKind)

  /** `card::create`: the card kind named by the `type` attribute, each reading its own
      attributes on top of the common ones; any other type fails. */
  function Create(attrs: Wml.Attrs): (r: Result<Card>)
    ensures var t := Wml.Attr(attrs, "type");
      r.Ok? <==> t in {"land", "monster", "modification", "attack", "dummy"}
    ensures r.Ok? ==> r.value.cost == CostOf(Wml.Attr(attrs, "cost")) && r.value.id == Wml.Attr(attrs, "id")
    ensures r.Ok? ==> (r.value.kind.Land? <==> Wml.Attr(attrs, "type") == "land")
    ensures r.Ok? && r.value.kind.Land? ==> r.value.kind.lands == Text.Split(Wml.Attr(attrs, "land"), ',')
    ensures r.Ok? && r.value.kind.ModificationCard? ==> r.value.kind.range == Wml.GetInt(attrs, "range", -1)
  {
    var t := Wml.Attr(attrs, "type");
    var vt := Wml.Attr(attrs, "valid_targets");
    var base := Card(Wml.Attr(attrs, "id"), Wml.Attr(attrs, "name"), Wml.GetInt(attrs, "speed", 0),
                     Wml.GetBool(attrs, "taps_caster", true), CostOf(Wml.Attr(attrs, "cost")),
                     if vt == "" then None else Some(vt), Dummy);
    if t == "land" then Ok(base.(kind := Land(Text.Split(Wml.Attr(attrs, "land"), ','))))
    else if t == "monster" then Ok(base.(kind := Monster(Wml.Attr(attrs, "monster"))))
    else if t == "modification" then
      Ok(base.(kind := ModificationCard(Wml.GetInt(attrs, "damage", 0), Wml.GetInt(attrs, "targets", 0),
                                        Wml.GetInt(attrs, "range", -1), Units.ReadMod(attrs))))
    else if t == "attack" then
      Ok(base.(kind := Attack(Wml.GetInt(attrs, "damage", 0), Wml.GetInt(attrs, "range", 0))))
    else if t == "dummy" then Ok(base)
    else Fail("UNRECOGNIZED CARD TYPE")
  }

  /** `card::cost(n)`: the n-th entry of the cost vector; any other index fails the
      index assertion. */
  function Cost(c: Card, n: int): (r: Result<int>)
    ensures r.Ok? <==> 0 <= n < |c.cost|
    ensures r.Ok? ==> r.value == c.cost[n]
  {
    if 0 <= n < |c.cost| then Ok(c.cost[n]) else Fail("index out of range")
  }

  /** A card built by `create` charges, for each resource, the number of its id
      characters in the cost string. */
  lemma CreatedCost(attrs: Wml.Attrs, n: nat)
    requires Create(attrs).Ok? && n < Resource.NumResources
    ensures Cost(Create(attrs).value, n) == Ok(Text.Count(Wml.Attr(attrs, "cost"), Resource.ResourceId(n)))
  {
  }

  // ---------------------------------------------------------------- valid targets

  /** The locations a valid-targets result names: location objects give their own
      location, tile objects their tile's; other elements are skipped. */
  function LocsOf(items: seq<Value>): (r: seq<Loc>)
    ensures |r| <= |items|
  {
    if items == [] then []
    else
      var v := items[|items| - 1];
      LocsOf(items[..|items| - 1])
      + (if v.Location? then [Loc(v.x, v.y)] else if v.TileRef? then [Loc(v.tx, v.ty)] else [])
  }

  /** Every location taken from a valid-targets result comes from one of its elements. */
  lemma {:induction false} LocsOfFrom(items: seq<Value>, l: Loc)
    requires l in LocsOf(items)
    ensures Location(l.x, l.y) in items || exists t :: TileRef(l.x, l.y, t) in items
  {
    var init := items[..|items| - 1];
    var v := items[|items| - 1];
    if l in LocsOf(init) {
      LocsOfFrom(init, l);
      assert forall w :: w in init ==> w in items;
    } else if v.Location? {
      assert v == Location(l.x, l.y);
    } else {
      assert v == TileRef(l.x, l.y, v.terrain);
    }
  }

  /** The base `calculate_valid_targets`: without a formula it answers false and leaves
      the result alone; otherwise it appends the locations named by the elements of
      the formula's value, `items`, and answers true. */
  method BaseValidTargets(c: Card, items: seq<Value>, result: seq<Loc>) returns (valid: bool, res: seq<Loc>)
    ensures valid <==> c.validTargets.Some?
    ensures !valid ==> res == result
    ensures valid ==> res == result + LocsOf(items)
  {
    if c.validTargets.None? {
      return false, result;
    }
    res := result;
    var n := 0;
    while n != |items|
      invariant 0 <= n <= |items|
      invariant res == result + LocsOf(items[..n])
    {
      var v := items[n];
      if v.Location? {
        res := res + [Loc(v.x, v.y)];
      } else if v.TileRef? {
        res := res + [Loc(v.tx, v.ty)];
      }
      n := n + 1;
      assert items[..n][..n - 1] == items[..n - 1];
    }
    assert items[..n] == items;
    valid := true;
  }

  /** The occupied locations in the radius, other than the caster's own hex, in order. */
  function OccupiedAround(radius: seq<Loc>, caster: Loc, occupied: Loc -> bool): seq<Loc>
  {
    if radius == [] then []
    else
      var l := radius[|radius| - 1];
      OccupiedAround(radius[..|radius| - 1], caster, occupied)
      + (if l != caster && occupied(l) then [l] else [])
  }

  /** Only occupied hexes other than the caster's are attack targets, and each occupied
      hex of the radius except the caster's is one. */
  lemma {:induction false} OccupiedAroundMembers(radius: seq<Loc>, caster: Loc, occupied: Loc -> bool, l: Loc)
    ensures l in OccupiedAround(radius, caster, occupied) <==> l in radius && l != caster && occupied(l)
  {
    if radius != [] {
      var init := radius[..|radius| - 1];
      OccupiedAroundMembers(init, caster, occupied, l);
      assert radius == init + [radius[|radius| - 1]];
    }
  }

  /** `attack_card::calculate_valid_targets`: with a caster and a non-negative range,
      appends the occupied hexes within the range (`radius`, the tiles in that radius
      of the caster) except the caster's own, and answers true; otherwise answers
      false and leaves the result alone. `occupied` is `get_unit_at(loc) != null`. */
  method AttackValidTargets(range: int, caster: Option<Loc>, radius: seq<Loc>, occupied: Loc -> bool,
                            result: seq<Loc>) returns (valid: bool, res: seq<Loc>)
    ensures valid <==> caster.Some? && range >= 0
    ensures !valid ==> res == result
    ensures valid ==> res == result + OccupiedAround(radius, caster.value, occupied)
  {
    if caster.None? || range < 0 {
      return false, result;
    }
    res := result;
    var n := 0;
    while n != |radius|
      invariant 0 <= n <= |radius|
      invariant res == result + OccupiedAround(radius[..n], caster.value, occupied)
    {
      var l := radius[n];
      if l != caster.value && occupied(l) {
        res := res + [l];
      }
      n := n + 1;
      assert radius[..n][..n - 1] == radius[..n - 1];
    }
    assert radius[..n] == radius;
    valid := true;
  }

  /** The damage an attack finally deals: damage less defense when that is positive,
      otherwise 1 if the attack does any damage at all, else 0. */
  function FinalDamage(damage: int, defense: int): (d: int)
    ensures d >= 0
    ensures d >= damage - defense
    ensures damage > 0 ==> d >= 1
    ensures damage > 0 && damage - defense <= 0 ==> d == 1
    ensures d == 0 <==> damage <= 0 && damage <= defense
    ensures damage - defense > 0 ==> d == damage - defense
  {
    var f := damage - defense;
    if f > 0 then f else if damage > 0 then 1 else 0
  }

  // ---------------------------------------------------------------- land cards

  /** The board after the first |picks| lands went to the picked locations. */
  function Apply(tiles: seq<Tile>, width: int, height: int, picks: seq<Loc>, lands: seq<string>,
                 terrains: map<string, Terrain>): (r: seq<Tile>)
    requires |tiles| == width * height && |picks| <= |lands|
    requires forall i :: 0 <= i < |picks| ==> OnBoard(picks[i], width, height)
    ensures |r| == |tiles|
  {
    if picks == [] then tiles
    else
      var k := |picks| - 1;
      var before := Apply(tiles, width, height, picks[..k], lands, terrains);
      IndexInRange(picks[k], width, height);
      var i := Index(picks[k], width);
      before[i := SetTerrain(before[i], lands[k], terrains)]
  }

  /** The backups `land_card::play_card` keeps as written: each pick stores the tile it
      is about to change, replacing what an earlier pick of the same location stored. */
  function BackupsAsWritten(tiles: seq<Tile>, width: int, height: int, picks: seq<Loc>,
                            lands: seq<string>, terrains: map<string, Terrain>): map<Loc, Tile>
    requires |tiles| == width * height && |picks| <= |lands|
    requires forall i :: 0 <= i < |picks| ==> OnBoard(picks[i], width, height)
  {
    if picks == [] then map[]
    else
      var k := |picks| - 1;
      var before := Apply(tiles, width, height, picks[..k], lands, terrains);
      IndexInRange(picks[k], width, height);
      BackupsAsWritten(tiles, width, height, picks[..k], lands, terrains)[picks[k] := before[Index(picks[k], width)]]
  }

  /** As written, a location picked twice keeps as its backup the tile the first pick
      produced, so cancelling restores that tile and not the original. */
  lemma BackupAfterRepeatedPick(tiles: seq<Tile>, width: int, height: int, l: Loc,
                                lands: seq<string>, terrains: map<string, Terrain>)
    requires |tiles| == width * height && 2 <= |lands| && OnBoard(l, width, height)
    ensures 0 <= Index(l, width) < |tiles|
    ensures l in BackupsAsWritten(tiles, width, height, [l, l], lands, terrains)
    ensures BackupsAsWritten(tiles, width, height, [l, l], lands, terrains)[l]
            == SetTerrain(tiles[Index(l, width)], lands[0], terrains)
  {
    IndexInRange(l, width, height);
    assert [l, l][..1] == [l];
    assert [l][..0] == [];
  }

  /** A concrete case: on a one-tile board with no terrain, picking the only tile twice
      for a registered land and cancelling at the third land restores a tile with
      that land rather than the original. */
  lemma RepeatedPickCounterexample()
    ensures var t := Tile(Loc(0, 0), None, 0);
      var land := Terrain("forest", "", "", "", [], [], -1, 0, 1);
      BackupsAsWritten([t], 1, 1, [Loc(0, 0), Loc(0, 0)], ["forest", "forest", "forest"], map["forest" := land])[Loc(0, 0)]
      != t
  {
    var t := Tile(Loc(0, 0), None, 0);
    var land := Terrain("forest", "", "", "", [], [], -1, 0, 1);
    BackupAfterRepeatedPick([t], 1, 1, Loc(0, 0), ["forest", "forest", "forest"], map["forest" := land]);
  }

  /** The first n answers of the selector are all locations. */
  predicate AllPicked(choose: nat -> Option<Loc>, n: nat)
  {
    forall i :: 0 <= i < n ==> choose(i).Some?
  }

  /** Those first n locations, in order. */
  function Picks(choose: nat -> Option<Loc>, n: nat): (r: seq<Loc>)
    requires AllPicked(choose, n)
    ensures |r| == n && forall i :: 0 <= i < n ==> choose(i) == Some(r[i])
  {
    seq(n, i requires 0 <= i < n && AllPicked(choose, n) => choose(i).value)
  }

  /** One more pick changes exactly the tile at that location. */
  lemma ApplyStep(orig: seq<Tile>, width: int, height: int, picks: seq<Loc>, lands: seq<string>,
                  terrains: map<string, Terrain>, l: Loc)
    requires |orig| == width * height && |picks| < |lands| && OnBoard(l, width, height)
    requires forall i :: 0 <= i < |picks| ==> OnBoard(picks[i], width, height)
    ensures var before := Apply(orig, width, height, picks, lands, terrains);
            var i := Index(l, width);
            0 <= i < |before|
            && Apply(orig, width, height, picks + [l], lands, terrains) == before[i := SetTerrain(before[i], lands[|picks|], terrains)]
  {
    assert (picks + [l])[..|picks|] == picks;
    IndexInRange(l, width, height);
  }

  /** The backups a rollback needs: each backed-up location is on the board and holds
      its original tile, and every tile that differs from the original has a backup. */
  ghost predicate BackedUp(tiles: seq<Tile>, orig: seq<Tile>, backups: map<Loc, Tile>, width: int, height: int)
  {
    |tiles| == |orig| == width * height
    && (forall l :: l in backups ==> OnBoard(l, width, height)
                                     && 0 <= Index(l, width) < |orig| && backups[l] == orig[Index(l, width)])
    && (forall i :: 0 <= i < |orig| && tiles[i] != orig[i] ==>
          exists l :: l in backups && Index(l, width) == i)
  }

  /** Changing the tile at a picked location, after backing it up unless it already was,
      keeps the backups sufficient. */
  lemma BackupStep(tiles: seq<Tile>, orig: seq<Tile>, backups: map<Loc, Tile>, width: int, height: int,
                   l: Loc, t: Tile)
    requires BackedUp(tiles, orig, backups, width, height) && OnBoard(l, width, height)
    ensures 0 <= Index(l, width) < |tiles|
    ensures BackedUp(tiles[Index(l, width) := t], orig,
                     if l in backups then backups else backups[l := tiles[Index(l, width)]], width, height)
  {
    IndexInRange(l, width, height);
    var i := Index(l, width);
    var b := if l in backups then backups else backups[l := tiles[i]];
    if l !in backups && tiles[i] != orig[i] {
      var l' :| l' in backups && Index(l', width) == i;
      IndexInjective(l', l, width, height);
    }
    var tiles' := tiles[i := t];
    forall j | 0 <= j < |orig| && tiles'[j] != orig[j]
      ensures exists k :: k in b && Index(k, width) == j
    {
      if j != i {
        var k :| k in backups && Index(k, width) == j;
        assert k in b;
      } else {
        assert l in b;
      }
    }
  }

  /** `land_card::play_card`, with the backup of a location taken only the first time it
      is picked. The n-th answer of the selector is `choose(n)`, `None` standing for
      the invalid location that cancels. A picked location must be on the board (the
      tile assertion). On cancellation every tile is restored and there is no play;
      otherwise the play names each land at its location and the board holds the lands. */
  method PlayLand(c: Card, board: Board, choose: nat -> Option<Loc>, terrains: map<string, Terrain>)
    returns (r: Result<Option<Play>>)
    requires c.kind.Land? && board.Valid()
    modifies board
    ensures board.Valid() && board.width == old(board.width) && board.height == old(board.height)
    ensures board.started == old(board.started)
    ensures r == Ok(None) ==> board.tiles == old(board.tiles)
    ensures r.Ok? && r.value.Some? ==> AllPicked(choose, |c.kind.lands|)
    ensures r.Ok? && r.value.Some? ==>
              var lands := c.kind.lands;
              var picks := Picks(choose, |lands|);
              (forall i :: 0 <= i < |lands| ==> OnBoard(picks[i], board.width, board.height))
              && r.value.value == Play(c.id, None, [], seq(|lands|, i requires 0 <= i < |lands| => LandChild(picks[i], lands[i])), [])
              && board.tiles == Apply(old(board.tiles), board.width, board.height, picks, lands, terrains)
    ensures r.Fail? ==> exists i :: 0 <= i < |c.kind.lands| && choose(i).Some?
                                   && !(board.started && OnBoard(choose(i).value, board.width, board.height))
  {
    var lands := c.kind.lands;
    ghost var orig := board.tiles;
    ghost var w, h := board.width, board.height;
    var children: seq<LandChild> := [];
    var backups: map<Loc, Tile> := map[];
    ghost var picks: seq<Loc> := [];
    var n := 0;
    while n != |lands|
      invariant 0 <= n <= |lands| && |picks| == n
      invariant board.Valid() && board.width == w && board.height == h
      invariant board.started == old(board.started)
      invariant PickedSoFar(choose, picks, children, lands, w, h)
      invariant board.tiles == Apply(orig, w, h, picks, lands, terrains)
      invariant BackedUp(board.tiles, orig, backups, w, h)
    {
      var loc := choose(n);
      if loc.None? {
        Restore(board, backups, orig);
        return Ok(None);
      }
      var t := board.GetTile(loc.value);
      if t.None? {
        assert choose(n).Some? && !(board.started && OnBoard(choose(n).value, board.width, board.height));
        return Fail("Invalid location selected");
      }
      ApplyStep(orig, w, h, picks, lands, terrains, loc.value);
      backups := PlaceLand(board, loc.value, t.value, lands[n], terrains, backups, orig);
      assert board.tiles == Apply(orig, w, h, picks + [loc.value], lands, terrains);
      PickedSnoc(choose, picks, children, lands, w, h, loc.value);
      children := children + [LandChild(loc.value, lands[n])];
      picks := picks + [loc.value];
      n := n + 1;
    }
    assert AllPicked(choose, |lands|);
    assert picks == Picks(choose, |lands|);
    assert children == seq(|lands|, i requires 0 <= i < |lands| => LandChild(picks[i], lands[i]));
    r := Ok(Some(Play(c.id, None, [], children, [])));
  }

  /** The first picks of `play_card` are the selector's answers, on the board, and the
      children name each land at its pick. */
  predicate PickedSoFar(choose: nat -> Option<Loc>, picks: seq<Loc>, children: seq<LandChild>, lands: seq<string>,
                        w: int, h: int)
  {
    |picks| == |children| <= |lands|
    && forall i :: 0 <= i < |picks| ==> choose(i) == Some(picks[i]) && OnBoard(picks[i], w, h)
                                        && children[i] == LandChild(picks[i], lands[i])
  }

  lemma PickedSnoc(choose: nat -> Option<Loc>, picks: seq<Loc>, children: seq<LandChild>, lands: seq<string>,
                   w: int, h: int, l: Loc)
    requires PickedSoFar(choose, picks, children, lands, w, h) && |picks| < |lands|
    requires choose(|picks|) == Some(l) && OnBoard(l, w, h)
    ensures PickedSoFar(choose, picks + [l], children + [LandChild(l, lands[|picks|])], lands, w, h)
  {
  }

  /** One pick of `play_card`: the tile at the location is backed up unless it already
      was, then takes the land's terrain. */
  method PlaceLand(board: Board, l: Loc, i: nat, land: string, terrains: map<string, Terrain>,
                   backups: map<Loc, Tile>, ghost orig: seq<Tile>) returns (r: map<Loc, Tile>)
    requires board.Valid() && OnBoard(l, board.width, board.height) && i == Index(l, board.width)
    requires BackedUp(board.tiles, orig, backups, board.width, board.height)
    modifies board
    ensures board.Valid() && board.width == old(board.width) && board.height == old(board.height)
    ensures board.started == old(board.started)
    ensures i < |old(board.tiles)| && board.tiles == old(board.tiles)[i := SetTerrain(old(board.tiles)[i], land, terrains)]
    ensures BackedUp(board.tiles, orig, r, board.width, board.height)
  {
    IndexInRange(l, board.width, board.height);
    var tiles := board.tiles;
    var t := SetTerrain(tiles[i], land, terrains);
    BackupStep(tiles, orig, backups, board.width, board.height, l, t);
    r := if l in backups then backups else backups[l := tiles[i]];
    board.tiles := tiles[i := t];
  }

  /** The rollback loop: writes every backed-up tile back to its location. Each backup
      is the original tile there, and every changed tile has a backup, so the board
      ends as it was. */
  method Restore(board: Board, backups: map<Loc, Tile>, ghost orig: seq<Tile>)
    requires board.Valid() && BackedUp(board.tiles, orig, backups, board.width, board.height)
    modifies board
    ensures board.tiles == orig
    ensures board.Valid() && board.width == old(board.width) && board.height == old(board.height)
    ensures board.started == old(board.started)
  {
    var remaining := backups.Keys;
    while remaining != {}
      invariant remaining <= backups.Keys
      invariant board.Valid() && board.width == old(board.width) && board.height == old(board.height)
      invariant board.started == old(board.started) && |orig| == |board.tiles|
      invariant forall i :: 0 <= i < |orig| && board.tiles[i] != orig[i] ==>
                  exists l :: l in remaining && Index(l, board.width) == i
      decreases remaining
    {
      var l :| l in remaining;
      board.tiles := board.tiles[Index(l, board.width) := backups[l]];
      remaining := remaining - {l};
    }
    assert forall i :: 0 <= i < |orig| ==> board.tiles[i] == orig[i];
  }

  // ---------------------------------------------------------------- decks

  /** `held_card`: a card id in a player's spells and its embargo. */
  datatype HeldCard = HeldCard(card: string, embargo: int)

  /** One deck item: "id" or "id embargo"; any other token count fails, and so does an
      id `card::get` does not know (`known`). */
  function ReadItem(item: string, known: set<string>): (r: Result<HeldCard>)
    ensures r.Ok? <==> (|Text.Split(item, ' ')| == 1 || |Text.Split(item, ' ')| == 2) && Text.Split(item, ' ')[0] in known
  {
    var v := Text.Split(item, ' ');
    if |v| != 1 && |v| != 2 then Fail("ILLEGAL DECK FORMAT")
    else if v[0] !in known then Fail("UNKNOWN CARD")
    else Ok(HeldCard(v[0], if |v| == 2 then Text.Atoi(v[1]) else 0))
  }

  function ReadItems(items: seq<string>, known: set<string>): (r: Result<seq<HeldCard>>)
    ensures r.Ok? ==> |r.value| == |items|
  {
    if items == [] then Ok([])
    else
      var init := ReadItems(items[..|items| - 1], known);
      var last := ReadItem(items[|items| - 1], known);
      if init.Fail? then init
      else if last.Fail? then Fail(last.reason)
      else Ok(init.value + [last.value])
  }

  /** `read_deck`: the comma-separated items in order. */
  method ReadDeck(str: string, known: set<string>) returns (r: Result<seq<HeldCard>>)
    ensures r == ReadItems(Text.Split(str, ','), known)
  {
    var items := Text.Split(str, ',');
    var result: seq<HeldCard> := [];
    var n := 0;
    while n != |items|
      invariant 0 <= n <= |items|
      invariant ReadItems(items[..n], known) == Ok(result)
    {
      ReadItemsStep(items, n, known);
      var h := ReadItem(items[n], known);
      if h.Fail? {
        FailurePersists(items, n, known);
        return Fail(h.reason);
      }
      result := result + [h.value];
      n := n + 1;
    }
    assert items[..n] == items;
    r := Ok(result);
  }

  lemma ReadItemsStep(items: seq<string>, n: nat, known: set<string>)
    requires n < |items|
    ensures var init := ReadItems(items[..n], known);
            var last := ReadItem(items[n], known);
            ReadItems(items[..n + 1], known)
            == if init.Fail? then init else if last.Fail? then Fail(last.reason) else Ok(init.value + [last.value])
  {
    assert items[..n + 1][..n] == items[..n];
    assert items[..n + 1][n] == items[n];
  }

  /** Once an item fails to read, reading any longer prefix fails with that reason. */
  lemma {:induction false} FailurePersists(items: seq<string>, n: nat, known: set<string>)
    requires n < |items| && ReadItems(items[..n], known).Ok? && ReadItem(items[n], known).Fail?
    ensures ReadItems(items, known) == Fail(ReadItem(items[n], known).reason)
    decreases |items| - n
  {
    if n + 1 < |items| {
      assert items[..|items| - 1][..n] == items[..n];
      assert items[..|items| - 1][n] == items[n];
      FailurePersists(items[..|items| - 1], n, known);
    } else {
      assert items[..|items| - 1] == items[..n];
    }
  }

  /** The text `write_deck` gives one held card: the id, then " embargo" when non-zero. */
  function ItemText(h: HeldCard): string
  {
    h.card + (if h.embargo != 0 then " " + Text.IntToString(h.embargo) else "")
  }

  function ItemTexts(cards: seq<HeldCard>): (r: seq<string>)
    ensures |r| == |cards| && forall i :: 0 <= i < |cards| ==> r[i] == ItemText(cards[i])
  {
    seq(|cards|, i requires 0 <= i < |cards| => ItemText(cards[i]))
  }

  lemma ItemTextsSnoc(cards: seq<HeldCard>, n: nat)
    requires n < |cards|
    ensures ItemTexts(cards[..n + 1]) == ItemTexts(cards[..n]) + [ItemText(cards[n])]
  {
    assert ItemTexts(cards[..n + 1])[n] == ItemText(cards[n]);
  }

  /** `write_deck`: the items joined with commas. */
  method WriteDeck(cards: seq<HeldCard>) returns (result: string)
    ensures result == Text.Join(ItemTexts(cards), ',')
  {
    result := "";
    var n := 0;
    while n != |cards|
      invariant 0 <= n <= |cards|
      invariant result == Text.Join(ItemTexts(cards[..n]), ',')
    {
      var item := ItemText(cards[n]);
      ghost var texts := ItemTexts(cards[..n]);
      ItemTextsSnoc(cards, n);
      Text.JoinSnoc(texts, item, ',');
      assert texts == [] <==> n == 0;
      if n != 0 {
        result := result + ",";
      }
      result := result + item;
      n := n + 1;
    }
    assert cards[..n] == cards;
  }

  /** An id `write_deck` can write and `read_deck` read back: known, non-empty, with no
      white space at its ends and no comma or space inside. */
  predicate WritableId(id: string, known: set<string>)
  {
    id in known && id != [] && Text.Trimmed(id) && ',' !in id && ' ' !in id
  }

  lemma ReadWrittenItem(h: HeldCard, known: set<string>)
    requires WritableId(h.card, known)
    ensures ReadItem(ItemText(h), known) == Ok(h)
  {
    if h.embargo != 0 {
      var e := Text.IntToString(h.embargo);
      Text.JoinPair(h.card, e, ' ');
      assert ItemText(h) == Text.Join([h.card, e], ' ');
      Text.SplitJoin([h.card, e], ' ');
      var v := Text.Split(ItemText(h), ' ');
      assert v == [h.card, e];
      Text.AtoiIntToString(h.embargo);
      assert ReadItem(ItemText(h), known) == Ok(HeldCard(v[0], Text.Atoi(v[1])));
    } else {
      Text.SplitJoin([h.card], ' ');
      assert ItemText(h) == h.card == Text.Join([h.card], ' ');
      var v := Text.Split(ItemText(h), ' ');
      assert v == [h.card];
      assert ReadItem(ItemText(h), known) == Ok(HeldCard(v[0], 0));
    }
  }

  /** `read_deck(write_deck(d)) == d`: writing a deck and reading it back gives the same
      cards with the same embargoes. */
  lemma {:induction false} ReadWriteDeck(cards: seq<HeldCard>, known: set<string>)
    requires forall i :: 0 <= i < |cards| ==> WritableId(cards[i].card, known)
    ensures ReadItems(Text.Split(Text.Join(ItemTexts(cards), ','), ','), known) == Ok(cards)
  {
    var items := ItemTexts(cards);
    forall i | 0 <= i < |items|
      ensures items[i] != [] && Text.Trimmed(items[i]) && ',' !in items[i]
    {
      var h := cards[i];
      if h.embargo != 0 {
        var e := Text.IntToString(h.embargo);
        assert items[i] == h.card + " " + e;
        assert items[i][|items[i]| - 1] == e[|e| - 1];
      }
    }
    Text.SplitJoin(items, ',');
    ReadItemsOfWritten(cards, known);
  }

  lemma {:induction false} ReadItemsOfWritten(cards: seq<HeldCard>, known: set<string>)
    requires forall i :: 0 <= i < |cards| ==> WritableId(cards[i].card, known)
    ensures ReadItems(ItemTexts(cards), known) == Ok(cards)
  {
    if cards != [] {
      var k := |cards| - 1;
      var t := ItemTexts(cards);
      assert ReadItems(t[..k], known) == Ok(cards[..k]) by {
        assert t[..k] == ItemTexts(cards[..k]);
        ReadItemsOfWritten(cards[..k], known);
      }
      assert ReadItem(t[k], known) == Ok(cards[k]) by {
        ReadWrittenItem(cards[k], known);
      }
      ReadItemsSnoc(t, cards, known);
    }
  }

  /** Items whose first ones read as the first cards and whose last reads as the last
      card read as all the cards. */
  lemma ReadItemsSnoc(items: seq<string>, cards: seq<HeldCard>, known: set<string>)
    requires items != [] && |items| == |cards|
    requires ReadItems(items[..|items| - 1], known) == Ok(cards[..|cards| - 1])
    requires ReadItem(items[|items| - 1], known) == Ok(cards[|cards| - 1])
    ensures ReadItems(items, known) == Ok(cards)
  {
    assert cards[..|cards| - 1] + [cards[|cards| - 1]] == cards;
  }

  // ---------------------------------------------------------------- summoning

  /** A unit that can summon at `loc` for `player`: one of the player's units, adjacent
      to `loc`, able to summon every upkeep character of the prototype. */
  predicate Summoner(u: Units.Unit, player: int, loc: Loc, upkeep: string, adjacent: (Loc, Loc) -> bool)
    reads u
  {
    u.side == player && adjacent(u.loc, loc) && forall i :: 0 <= i < |upkeep| ==> u.CanSummon(upkeep[i])
  }

  /** The rule `is_valid_summoning_hex` decides. `t` is the tile at `loc` (none off the
      board), `occupied` whether a unit stands there, `owner` the tower owner there. */
  predicate SummoningHexRule(t: Option<Tile>, occupied: bool, owner: int, player: int, loc: Loc,
                             upkeep: string, units: seq<Units.Unit>, adjacent: (Loc, Loc) -> bool)
    requires t.Some? ==> t.value.terrain.Some?
    reads set u | u in units
  {
    t.Some? && t.value.terrain.value.id != "void" && !occupied
    && !(t.value.terrain.value.id == "tower" && owner != player)
    && exists u :: u in units && Summoner(u, player, loc, upkeep, adjacent)
  }

  /** `is_valid_summoning_hex`: rejects a missing, void or occupied hex and a tower the
      player does not own, then looks for a unit of the player next to the hex that
      can summon every upkeep character of the prototype. */
  method IsValidSummoningHex(t: Option<Tile>, occupied: bool, owner: int, player: int, loc: Loc,
                             upkeep: string, units: seq<Units.Unit>, adjacent: (Loc, Loc) -> bool)
    returns (r: bool)
    requires t.Some? ==> t.value.terrain.Some?
    ensures r == SummoningHexRule(t, occupied, owner, player, loc, upkeep, units, adjacent)
  {
    if t.None? || t.value.terrain.value.id == "void" || occupied {
      return false;
    }
    if t.value.terrain.value.id == "tower" && owner != player {
      return false;
    }
    var n := 0;
    while n != |units|
      invariant 0 <= n <= |units|
      invariant forall k :: 0 <= k < n ==> !Summoner(units[k], player, loc, upkeep, adjacent)
    {
      var u := units[n];
      if u.side == player && adjacent(u.loc, loc) {
        var canSummon := true;
        var m := 0;
        while m != |upkeep|
          invariant 0 <= m <= |upkeep|
          invariant canSummon <==> forall i :: 0 <= i < m ==> u.CanSummon(upkeep[i])
        {
          if !u.CanSummon(upkeep[m]) {
            canSummon := false;
          }
          m := m + 1;
        }
        if canSummon {
          assert u in units && Summoner(u, player, loc, upkeep, adjacent);
          return true;
        }
      }
      n := n + 1;
    }
    return false;
  }
}
