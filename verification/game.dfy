/** The authoritative game (src/game.cpp): players with their spells, towers and
    resources; the units; the pass counter and the turn and casting pointers; the
    end-of-round upkeep, accrual and embargo countdown; moves with tower capture;
    card play with cost deduction; the death sweep; and the outgoing message queue. */
module Games {
  import opened Wrappers
  import Text
  import opened Values
  import Resource
  import opened HexGeometry
  import opened Terrains
  import opened Tiles
  import opened Boards
  import opened Messages
  import Units
  import Cards

  /** `game::player`. A default-constructed castle location (not yet placed) is `None`. */
  datatype Player = Player(castle: Option<Loc>, name: string, spells: seq<Cards.HeldCard>, towers: map<Loc, char>,
                           resources: seq<int>, resourceGain: seq<int>)

  datatype GameState = SetupState | PlayingState

  /** What a queued message says: `Snapshot` stands for the text of `write()`, the whole
      game state; the other two are the `new_turn` and `move_anim` notices. */
  datatype Contents = Snapshot | NewTurnNotice(player: string) | MoveAnim(from: Loc, to: Loc)

  /** `game::message`: the recipients (none means everyone) and the contents. */
  datatype Message = Message(recipients: seq<int>, contents: Contents)

  // ---------------------------------------------------------------- pointers

  /** The pass counter after an end_turn: one more on a skip, otherwise back to zero. */
  function PassesAfter(passes: int, skip: bool): int
  {
    if skip then passes + 1 else 0
  }

  /** The successor of a turn or casting pointer: one more, wrapping to zero when it
      reaches the player count. */
  function Next(i: int, count: int): int
  {
    if i + 1 == count then 0 else i + 1
  }

  /** From -1 (no turn yet) or a player's index, the pointer moves to the next player
      in round-robin order. */
  lemma NextInRange(i: int, count: int)
    requires 0 < count && -1 <= i < count
    ensures 0 <= Next(i, count) < count
    ensures Next(i, count) == (i + 1) % count
  {
  }

  /** A round completes after an end_turn exactly when the skips in a row reach the
      player count; skips in a row starting from zero passes, one per player, complete
      the round on the last one and not before. */
  lemma {:induction false} SkipsCompleteRound(passes: int, k: nat, count: int)
    requires 0 <= passes && passes + k < count
    ensures SkipRun(passes, k) == passes + k
    ensures PassesAfter(SkipRun(passes, k), true) >= count <==> passes + k + 1 >= count
  {
    if k > 0 {
      SkipsCompleteRound(passes, k - 1, count);
    }
  }

  /** The pass counter after k skips in a row. */
  function SkipRun(passes: int, k: nat): int
  {
    if k == 0 then passes else PassesAfter(SkipRun(passes, k - 1), true)
  }

  // ---------------------------------------------------------------- embargo

  /** An embargo after k decrements that stop at zero; a non-positive embargo stays. */
  function Decayed(e: int, k: nat): int
  {
    if e > 0 then (if e - k > 0 then e - k else 0) else e
  }

  /** One more decrement is one more step of the countdown; a positive embargo never
      goes below zero, and it is over once the round count reaches it. */
  lemma DecayedProperties(e: int, k: nat)
    ensures Decayed(Decayed(e, k), 1) == Decayed(e, k + 1)
    ensures e > 0 ==> 0 <= Decayed(e, k) <= e
    ensures e > 0 ==> (Decayed(e, k) == 0 <==> e <= k)
    ensures e <= 0 ==> Decayed(e, k) == e
  {
  }

  /** The held cards with every embargo counted down k times. */
  function DecaySpells(spells: seq<Cards.HeldCard>, k: nat): (r: seq<Cards.HeldCard>)
  {
    seq(|spells|, i requires 0 <= i < |spells| => spells[i].(embargo := Decayed(spells[i].embargo, k)))
  }

  /** The embargo loop over one player's spells: decrements each positive embargo. */
  method DecayOnce(spells: seq<Cards.HeldCard>) returns (r: seq<Cards.HeldCard>)
    ensures |r| == |spells|
    ensures forall i :: 0 <= i < |spells| ==> r[i].card == spells[i].card
    ensures forall i :: 0 <= i < |spells| ==>
              (spells[i].embargo > 0 ==> r[i].embargo == spells[i].embargo - 1)
              && (spells[i].embargo <= 0 ==> r[i].embargo == spells[i].embargo)
  {
    r := spells;
    var i := 0;
    while i != |r|
      invariant 0 <= i <= |r| == |spells|
      invariant forall k :: 0 <= k < i ==> r[k] == spells[k].(embargo := Decayed(spells[k].embargo, 1))
      invariant forall k :: i <= k < |r| ==> r[k] == spells[k]
    {
      if r[i].embargo > 0 {
        r := r[i := r[i].(embargo := r[i].embargo - 1)];
      }
      i := i + 1;
    }
  }

  /** Counting down once more after k rounds is counting down k + 1 times. */
  lemma DecaySpellsStep(spells: seq<Cards.HeldCard>, k: nat)
    ensures DecaySpells(DecaySpells(spells, k), 1) == DecaySpells(spells, k + 1)
  {
    forall i | 0 <= i < |spells|
      ensures DecaySpells(DecaySpells(spells, k), 1)[i] == DecaySpells(spells, k + 1)[i]
    {
      DecayedProperties(spells[i].embargo, k);
    }
  }

  /** One pass of the nested embargo loop: every player's spells counted down once,
      nothing else about the players changed. */
  method DecayEmbargoes(players: seq<Player>) returns (r: seq<Player>)
    ensures |r| == |players|
    ensures forall i :: 0 <= i < |players| ==> r[i] == players[i].(spells := DecaySpells(players[i].spells, 1))
  {
    r := players;
    var n := 0;
    while n != |r|
      invariant 0 <= n <= |r| == |players|
      invariant forall i :: 0 <= i < n ==> r[i] == players[i].(spells := DecaySpells(players[i].spells, 1))
      invariant forall i :: n <= i < |r| ==> r[i] == players[i]
    {
      var spells := DecayOnce(r[n].spells);
      assert spells == DecaySpells(players[n].spells, 1);
      r := r[n := r[n].(spells := spells)];
      n := n + 1;
    }
  }

  // ---------------------------------------------------------------- upkeep

  function Max0(x: int): int
  {
    if x < 0 then 0 else x
  }

  /** The first n entries of a vector after `resize(n)`: missing entries are zero. */
  function Resize(v: seq<int>, n: nat): (r: seq<int>)
    ensures |r| == n
  {
    seq(n, i requires 0 <= i < n => if i < |v| then v[i] else 0)
  }

  /** How many upkeep characters `c` the units of a side carry in total. */
  function UpkeepCount(units: seq<Units.Unit>, side: int, c: char): nat
  {
    if units == [] then 0
    else
      var u := units[|units| - 1];
      UpkeepCount(units[..|units| - 1], side, c) + (if u.side == side then Text.Count(u.kind.upkeep, c) else 0)
  }

  /** How many of a player's towers produce resource `c`. */
  function TowerCount(towers: map<Loc, char>, c: char): nat
  {
    |set l | l in towers && towers[l] == c|
  }

  /** The upkeep a side pays per resource: the units' upkeep characters, one less for
      each tower of that resource, never below zero. */
  function Upkeep(units: seq<Units.Unit>, side: int, towers: map<Loc, char>): (r: seq<int>)
    ensures |r| == Resource.NumResources
  {
    seq(Resource.NumResources, m requires 0 <= m < Resource.NumResources =>
      Max0(UpkeepCount(units, side, Resource.ResourceId(m)) - TowerCount(towers, Resource.ResourceId(m))))
  }

  /** The resources after a round: each gains its income less its upkeep, never below zero. */
  function Accrued(resources: seq<int>, gain: seq<int>, upkeep: seq<int>): (r: seq<int>)
    requires |resources| == |gain| == |upkeep| == Resource.NumResources
    ensures |r| == Resource.NumResources
  {
    seq(Resource.NumResources, m requires 0 <= m < Resource.NumResources => Max0(resources[m] + gain[m] - upkeep[m]))
  }

  /** The upkeep characters of a side's units, and the resources of its towers, are all
      resource ids; otherwise `resource_index` fails its assertion. */
  predicate UpkeepIds(units: seq<Units.Unit>, side: int, towers: map<Loc, char>)
  {
    (forall u :: u in units && u.side == side ==> AllIds(u.kind.upkeep))
    && forall l :: l in towers ==> towers[l] in Resource.ResourceStr
  }

  predicate AllIds(s: string)
  {
    forall i :: 0 <= i < |s| ==> s[i] in Resource.ResourceStr
  }

  /** The players after a completed round: every embargo counted down once per player,
      the resource and gain vectors resized to the resource count, and each player's
      resources accrued against its upkeep. */
  function RoundPlayers(players: seq<Player>, units: seq<Units.Unit>): (r: seq<Player>)
    ensures |r| == |players|
  {
    seq(|players|, n requires 0 <= n < |players| =>
      Accrue(players[n], units, n).(spells := DecaySpells(players[n].spells, |players|)))
  }

  /** One player's accounting in a completed round: the vectors resized to the resource
      count and the resources accrued against the upkeep of side `side`. */
  function Accrue(p: Player, units: seq<Units.Unit>, side: int): Player
  {
    var gain := Resize(p.resourceGain, Resource.NumResources);
    p.(resources := Accrued(Resize(p.resources, Resource.NumResources), gain, Upkeep(units, side, p.towers)),
       resourceGain := gain)
  }

  /** After a round every resource is non-negative, no more than the income allows, and
      exactly income less upkeep when that is not negative; a tower per upkeep
      character makes the upkeep free. */
  lemma RoundResources(players: seq<Player>, units: seq<Units.Unit>, n: nat, m: nat)
    requires n < |players| && m < Resource.NumResources
    ensures var p := players[n];
      var before := Resize(p.resources, Resource.NumResources)[m];
      var gain := Resize(p.resourceGain, Resource.NumResources)[m];
      var up := Upkeep(units, n, p.towers)[m];
      var after := RoundPlayers(players, units)[n].resources[m];
      0 <= after && 0 <= up && (before + gain - up >= 0 ==> after == before + gain - up)
      && up <= UpkeepCount(units, n, Resource.ResourceId(m))
      && (UpkeepCount(units, n, Resource.ResourceId(m)) <= TowerCount(p.towers, Resource.ResourceId(m)) ==> up == 0)
  {
  }

  /** `upkeep[resource_index(c)]++` for each character of one unit's upkeep string. */
  method AddUpkeep(upkeep: seq<int>, s: string) returns (r: Result<seq<int>>)
    requires |upkeep| == Resource.NumResources
    ensures r.Ok? <==> AllIds(s)
    ensures r.Ok? ==> |r.value| == Resource.NumResources
    ensures r.Ok? ==> forall m :: 0 <= m < Resource.NumResources ==>
              r.value[m] == upkeep[m] + Text.Count(s, Resource.ResourceId(m))
  {
    var acc := upkeep;
    var i := 0;
    while i != |s|
      invariant 0 <= i <= |s| && |acc| == Resource.NumResources
      invariant AllIds(s[..i])
      invariant forall m :: 0 <= m < Resource.NumResources ==>
                  acc[m] + Text.Count(s[i..], Resource.ResourceId(m)) == upkeep[m] + Text.Count(s, Resource.ResourceId(m))
    {
      assert s[i..][1..] == s[i + 1..];
      var index := Resource.ResourceIndex(s[i]);
      if index.Fail? {
        return Fail(index.reason);
      }
      var k := index.value;
      forall m | 0 <= m < Resource.NumResources
        ensures s[i] == Resource.ResourceId(m) <==> m == k
      {
        if m != k {
          Resource.ResourcesDistinct(m, k);
        }
      }
      acc := acc[k := acc[k] + 1];
      assert s[..i + 1] == s[..i] + [s[i]];
      i := i + 1;
    }
    assert s[..i] == s;
    return Ok(acc);
  }

  /** The upkeep count over a side's units: a zero vector, then each unit of the side
      adds its upkeep characters. */
  method CountUpkeep(units: seq<Units.Unit>, side: int) returns (r: Result<seq<int>>)
    ensures r.Ok? <==> forall u :: u in units && u.side == side ==> AllIds(u.kind.upkeep)
    ensures r.Ok? ==> r.value == seq(Resource.NumResources, m requires 0 <= m < Resource.NumResources =>
                                     UpkeepCount(units, side, Resource.ResourceId(m)) as int)
  {
    var upkeep := seq(Resource.NumResources, m => 0);
    var n := 0;
    while n != |units|
      invariant 0 <= n <= |units| && |upkeep| == Resource.NumResources
      invariant forall i :: 0 <= i < n && units[i].side == side ==> AllIds(units[i].kind.upkeep)
      invariant forall m :: 0 <= m < Resource.NumResources ==>
                  upkeep[m] == UpkeepCount(units[..n], side, Resource.ResourceId(m))
    {
      assert units[..n + 1][..n] == units[..n];
      var u := units[n];
      if u.side == side {
        var added := AddUpkeep(upkeep, u.kind.upkeep);
        if added.Fail? {
          return added;
        }
        upkeep := added.value;
      }
      n := n + 1;
    }
    assert units[..n] == units;
    return Ok(upkeep);
  }

  /** How many of the towers at `keys` produce resource `c`. */
  function TowerCountIn(towers: map<Loc, char>, keys: set<Loc>, c: char): nat
  {
    |set l | l in keys && l in towers && towers[l] == c|
  }

  /** Visiting one more tower adds it to the count of its own resource only. */
  lemma TowerCountInAdd(towers: map<Loc, char>, done: set<Loc>, l: Loc, k: nat, m: nat)
    requires l in towers && l !in done && k < Resource.NumResources && m < Resource.NumResources
    requires towers[l] == Resource.ResourceId(k)
    ensures TowerCountIn(towers, done + {l}, Resource.ResourceId(m))
            == TowerCountIn(towers, done, Resource.ResourceId(m)) + (if m == k then 1 else 0)
  {
    var c := Resource.ResourceId(m);
    var before := set x | x in done && x in towers && towers[x] == c;
    var after := set x | x in done + {l} && x in towers && towers[x] == c;
    if m == k {
      assert after == before + {l};
    } else {
      Resource.ResourcesDistinct(m, k);
      assert after == before;
    }
  }

  /** The upkeep after the towers at `keys` have been visited. */
  function Relieved(upkeep: seq<int>, towers: map<Loc, char>, keys: set<Loc>): (r: seq<int>)
    requires |upkeep| == Resource.NumResources
    ensures |r| == Resource.NumResources
  {
    seq(Resource.NumResources, m requires 0 <= m < Resource.NumResources =>
      Max0(upkeep[m] - TowerCountIn(towers, keys, Resource.ResourceId(m))))
  }

  /** Visiting a tower of resource k takes one off that upkeep unless it is already zero. */
  lemma RelievedStep(upkeep: seq<int>, towers: map<Loc, char>, done: set<Loc>, l: Loc, k: nat)
    requires |upkeep| == Resource.NumResources
    requires forall m :: 0 <= m < Resource.NumResources ==> upkeep[m] >= 0
    requires l in towers && l !in done && k < Resource.NumResources && towers[l] == Resource.ResourceId(k)
    ensures var a := Relieved(upkeep, towers, done);
      Relieved(upkeep, towers, done + {l}) == if a[k] > 0 then a[k := a[k] - 1] else a
  {
    var a := Relieved(upkeep, towers, done);
    var b := Relieved(upkeep, towers, done + {l});
    forall m | 0 <= m < Resource.NumResources
      ensures b[m] == (if a[k] > 0 then a[k := a[k] - 1] else a)[m]
    {
      TowerCountInAdd(towers, done, l, k, m);
    }
  }

  /** Having visited every tower, each upkeep is reduced by the player's tower count. */
  lemma RelievedAll(upkeep: seq<int>, towers: map<Loc, char>)
    requires |upkeep| == Resource.NumResources
    ensures Relieved(upkeep, towers, towers.Keys) == seq(Resource.NumResources, m requires 0 <= m < Resource.NumResources =>
                                                        Max0(upkeep[m] - TowerCount(towers, Resource.ResourceId(m))))
  {
    forall m | 0 <= m < Resource.NumResources
      ensures TowerCountIn(towers, towers.Keys, Resource.ResourceId(m)) == TowerCount(towers, Resource.ResourceId(m))
    {
      var c := Resource.ResourceId(m);
      assert (set x | x in towers.Keys && x in towers && towers[x] == c) == (set x | x in towers && towers[x] == c);
    }
  }

  /** The tower loop: each tower of a resource cancels one upkeep of that resource,
      stopping at zero. The order the towers are visited in does not matter. */
  method RelieveTowers(upkeep: seq<int>, towers: map<Loc, char>) returns (r: Result<seq<int>>)
    requires |upkeep| == Resource.NumResources
    requires forall m :: 0 <= m < Resource.NumResources ==> upkeep[m] >= 0
    ensures r.Ok? <==> forall l :: l in towers ==> towers[l] in Resource.ResourceStr
    ensures r.Ok? ==> r.value == seq(Resource.NumResources, m requires 0 <= m < Resource.NumResources =>
                                     Max0(upkeep[m] - TowerCount(towers, Resource.ResourceId(m))))
  {
    var acc := upkeep;
    var remaining := towers.Keys;
    ghost var done: set<Loc> := {};
    assert acc == Relieved(upkeep, towers, done);
    while remaining != {}
      invariant remaining <= towers.Keys
      invariant done == towers.Keys - remaining
      invariant forall l :: l in done ==> towers[l] in Resource.ResourceStr
      invariant acc == Relieved(upkeep, towers, done)
      decreases remaining
    {
      var l :| l in remaining;
      var index := Resource.ResourceIndex(towers[l]);
      if index.Fail? {
        return Fail(index.reason);
      }
      var k := index.value;
      RelievedStep(upkeep, towers, done, l, k);
      if acc[k] > 0 {
        acc := acc[k := acc[k] - 1];
      }
      remaining := remaining - {l};
      done := done + {l};
    }
    assert done == towers.Keys;
    RelievedAll(upkeep, towers);
    return Ok(acc);
  }

  /** The accrual loop: each resource gains its income less its upkeep, floored at zero. */
  method AccrueResources(resources: seq<int>, gain: seq<int>, upkeep: seq<int>) returns (r: seq<int>)
    requires |resources| == |gain| == |upkeep| == Resource.NumResources
    ensures r == Accrued(resources, gain, upkeep)
  {
    r := resources;
    var m := 0;
    while m != Resource.NumResources
      invariant 0 <= m <= Resource.NumResources && |r| == Resource.NumResources
      invariant forall k :: 0 <= k < m ==> r[k] == Max0(resources[k] + gain[k] - upkeep[k])
      invariant forall k :: m <= k < Resource.NumResources ==> r[k] == resources[k]
    {
      r := r[m := r[m] + gain[m] - upkeep[m]];
      if r[m] < 0 {
        r := r[m := 0];
      }
      m := m + 1;
    }
  }

  /** The per-player loop of a completed round: for each player in turn, every spell
      of every player is counted down once, then that player's vectors are resized and
      its resources accrued against its upkeep. An upkeep or tower character that is
      not a resource id fails. */
  method CompleteRoundPlayers(players: seq<Player>, units: seq<Units.Unit>) returns (r: Result<seq<Player>>)
    ensures r.Ok? <==> forall n :: 0 <= n < |players| ==> UpkeepIds(units, n, players[n].towers)
    ensures r.Ok? ==> r.value == RoundPlayers(players, units)
  {
    var ps := players;
    var n := 0;
    while n != |players|
      invariant 0 <= n <= |players| == |ps|
      invariant forall i :: 0 <= i < n ==> UpkeepIds(units, i, players[i].towers)
      invariant forall i :: 0 <= i < n ==> ps[i] == Accrue(players[i], units, i).(spells := DecaySpells(players[i].spells, n))
      invariant forall i :: n <= i < |ps| ==> ps[i] == players[i].(spells := DecaySpells(players[i].spells, n))
    {
      forall i | 0 <= i < |players| {
        DecaySpellsStep(players[i].spells, n);
      }
      ps := DecayEmbargoes(ps);
      var p := AccruePlayer(ps[n], units, n);
      if p.Fail? {
        return Fail(p.reason);
      }
      ps := ps[n := p.value];
      n := n + 1;
    }
    return Ok(ps);
  }

  /** The body of that loop for player `side`: upkeep counted over the units, relieved by
      the player's towers, then the resources accrued. */
  method AccruePlayer(p: Player, units: seq<Units.Unit>, side: int) returns (r: Result<Player>)
    ensures r.Ok? <==> UpkeepIds(units, side, p.towers)
    ensures r.Ok? ==> r.value == Accrue(p, units, side)
  {
    var gain := Resize(p.resourceGain, Resource.NumResources);
    var upkeep := CountUpkeep(units, side);
    if upkeep.Fail? {
      return Fail(upkeep.reason);
    }
    var relieved := RelieveTowers(upkeep.value, p.towers);
    if relieved.Fail? {
      return Fail(relieved.reason);
    }
    var res := AccrueResources(Resize(p.resources, Resource.NumResources), gain, relieved.value);
    assert relieved.value == Upkeep(units, side, p.towers);
    r := Ok(p.(resources := res, resourceGain := gain));
  }

  // ---------------------------------------------------------------- towers

  /** The first player from position k on other than `side` that owns a tower at `loc`. */
  function FirstOtherOwner(players: seq<Player>, loc: Loc, side: int, k: nat): (r: Option<nat>)
    ensures r.Some? ==> k <= r.value < |players| && r.value != side && loc in players[r.value].towers
    ensures r.None? ==> forall j :: k <= j < |players| && j != side ==> loc !in players[j].towers
    decreases |players| - k
  {
    if k >= |players| then None
    else if k != side && loc in players[k].towers then Some(k)
    else FirstOtherOwner(players, loc, side, k + 1)
  }

  /** The owner `tower_owner` reports from position k on: the first player holding a
      tower at `loc`, or -1. */
  function OwnerFrom(players: seq<Player>, loc: Loc, k: nat): (r: int)
    ensures -1 <= r < |players|
    ensures r >= 0 ==> k <= r && loc in players[r].towers && forall j :: k <= j < r ==> loc !in players[j].towers
    ensures r == -1 <==> forall j :: k <= j < |players| ==> loc !in players[j].towers
    decreases |players| - k
  {
    if k >= |players| then -1
    else if loc in players[k].towers then k
    else OwnerFrom(players, loc, k + 1)
  }

  /** Every tower has at most one owner: no two players hold the same location and a
      neutral tower belongs to nobody. */
  predicate UniqueOwners(players: seq<Player>, neutral: set<Loc>)
  {
    (forall l, i, j :: 0 <= i < |players| && 0 <= j < |players| && l in players[i].towers && l in players[j].towers ==> i == j)
    && forall l, i :: 0 <= i < |players| && l in neutral ==> l !in players[i].towers
  }

  /** Whether a unit of `side` stepping onto `loc` takes a tower: a neutral one, or one
      another player owns. */
  predicate Takes(players: seq<Player>, neutral: set<Loc>, loc: Loc, side: int)
  {
    loc in neutral || FirstOtherOwner(players, loc, side, 0).Some?
  }

  /** The resource a captured tower produces: the mover's `resource_type`, read back as
      its id. A first upkeep character that is not a resource id fails `resource_index`;
      a first gaining resource beyond the id string reads past it. */
  function CaptureResource(upkeep: string, gain: seq<int>): (r: Result<char>)
    ensures r.Ok? ==> r.value in Resource.ResourceStr
    ensures upkeep != [] ==> (r.Ok? <==> upkeep[0] in Resource.ResourceStr) && (r.Ok? ==> r.value == upkeep[0])
  {
    if upkeep != [] then
      (if upkeep[0] in Resource.ResourceStr then Ok(upkeep[0]) else Fail("BAD RESOURCE ID"))
    else if Units.FirstGain(gain) < Resource.NumResources then Ok(Resource.ResourceId(Units.FirstGain(gain)))
    else Fail("resource_id out of range")
  }

  /** The players once a taken tower has left its previous owner: unchanged for a
      neutral tower, otherwise without the tower at the first other owner. */
  function Stripped(players: seq<Player>, neutral: set<Loc>, loc: Loc, side: int): (r: seq<Player>)
    requires Takes(players, neutral, loc, side)
    ensures |r| == |players|
    ensures forall i :: 0 <= i < |players| ==>
              r[i] == players[i].(towers := r[i].towers) && r[i].towers - {loc} == players[i].towers - {loc}
  {
    if loc in neutral then players
    else
      var n := FirstOtherOwner(players, loc, side, 0).value;
      players[n := players[n].(towers := players[n].towers - {loc})]
  }

  /** With single owners, after the strip no player but the mover holds the tower, and
      single ownership holds without the tower among the neutral ones. */
  lemma StrippedOwners(players: seq<Player>, neutral: set<Loc>, loc: Loc, side: int)
    requires UniqueOwners(players, neutral) && Takes(players, neutral, loc, side)
    ensures var r := Stripped(players, neutral, loc, side);
      (forall i :: 0 <= i < |r| && i != side ==> loc !in r[i].towers)
      && UniqueOwners(r, neutral - {loc})
  {
    var r := Stripped(players, neutral, loc, side);
    if loc !in neutral {
      var n := FirstOtherOwner(players, loc, side, 0).value;
      forall i | 0 <= i < |r| && i != side
        ensures loc !in r[i].towers
      {
        if i != n {
          assert loc in players[n].towers;
        }
      }
    }
  }

  /** `capture_tower` on the players: the tower is taken from the other owner (when it
      was not neutral) and given to the mover's side, producing the mover's resource. */
  function CaptureOutcome(players: seq<Player>, neutral: set<Loc>, loc: Loc, side: int, upkeep: string)
    : (r: Result<seq<Player>>)
  {
    if !Takes(players, neutral, loc, side) then Ok(players)
    else
      var stripped := Stripped(players, neutral, loc, side);
      if !(0 <= side < |stripped|) then Ok(stripped)
      else match CaptureResource(upkeep, stripped[side].resourceGain)
        case Fail(e) => Fail(e)
        case Ok(c) => Ok(stripped[side := stripped[side].(towers := stripped[side].towers[loc := c])])
  }

  /** A capture fails only on an unreadable resource when a tower is taken, changes
      nothing when none is, and changes nothing but the towers at `loc`. */
  lemma CaptureFrame(players: seq<Player>, neutral: set<Loc>, loc: Loc, side: int, upkeep: string)
    ensures var r := CaptureOutcome(players, neutral, loc, side, upkeep);
      (r.Fail? ==> Takes(players, neutral, loc, side) && 0 <= side < |players|
                   && CaptureResource(upkeep, players[side].resourceGain).Fail?)
      && (r.Ok? && !Takes(players, neutral, loc, side) ==> r.value == players)
      && (r.Ok? ==> |r.value| == |players| && forall i :: 0 <= i < |players| ==>
            r.value[i] == players[i].(towers := r.value[i].towers)
            && r.value[i].towers - {loc} == players[i].towers - {loc})
  {
    if Takes(players, neutral, loc, side) {
      var stripped := Stripped(players, neutral, loc, side);
      assert 0 <= side < |players| ==> stripped[side].resourceGain == players[side].resourceGain;
    }
  }

  /** With single owners, a capture keeps single owners; a taken tower then belongs to
      the mover's side, producing a resource, or to nobody for a side with no player. */
  lemma CaptureOwners(players: seq<Player>, neutral: set<Loc>, loc: Loc, side: int, upkeep: string)
    requires UniqueOwners(players, neutral)
    ensures var r := CaptureOutcome(players, neutral, loc, side, upkeep);
      (r.Ok? ==> UniqueOwners(r.value, neutral - {loc}))
      && (r.Ok? && Takes(players, neutral, loc, side) && 0 <= side < |players| ==>
            OwnerFrom(r.value, loc, 0) == side && r.value[side].towers[loc] in Resource.ResourceStr)
      && (r.Ok? && Takes(players, neutral, loc, side) && !(0 <= side < |players|) ==> OwnerFrom(r.value, loc, 0) == -1)
  {
    var r := CaptureOutcome(players, neutral, loc, side, upkeep);
    if Takes(players, neutral, loc, side) {
      var stripped := Stripped(players, neutral, loc, side);
      StrippedOwners(players, neutral, loc, side);
      if r.Ok? && 0 <= side < |players| {
        var c := r.value[side].towers[loc];
        assert r.value == stripped[side := stripped[side].(towers := stripped[side].towers[loc := c])];
        assert loc in r.value[side].towers;
        assert forall j :: 0 <= j < side ==> loc !in r.value[j].towers;
      }
    } else if r.Ok? {
      assert r.value == players;
      assert UniqueOwners(players, neutral - {loc});
    }
  }

  /** A capture changes nothing when no tower is taken; otherwise the mover's side becomes
      the tower's one owner (nobody, for a side with no player), it fails only on an
      unreadable resource, nothing but the towers at `loc` changes, and towers keep a
      single owner. */
  lemma CaptureOwnership(players: seq<Player>, neutral: set<Loc>, loc: Loc, side: int, upkeep: string)
    requires UniqueOwners(players, neutral)
    ensures var r := CaptureOutcome(players, neutral, loc, side, upkeep);
      (r.Fail? ==> Takes(players, neutral, loc, side) && 0 <= side < |players|
                   && CaptureResource(upkeep, players[side].resourceGain).Fail?)
      && (r.Ok? ==> |r.value| == |players| && UniqueOwners(r.value, neutral - {loc}))
      && (r.Ok? && !Takes(players, neutral, loc, side) ==> r.value == players)
      && (r.Ok? && Takes(players, neutral, loc, side) && 0 <= side < |players| ==>
            OwnerFrom(r.value, loc, 0) == side && r.value[side].towers[loc] in Resource.ResourceStr)
      && (r.Ok? && Takes(players, neutral, loc, side) && !(0 <= side < |players|) ==> OwnerFrom(r.value, loc, 0) == -1)
      && (r.Ok? ==> forall i :: 0 <= i < |players| ==>
            r.value[i] == players[i].(towers := r.value[i].towers)
            && r.value[i].towers - {loc} == players[i].towers - {loc})
  {
    CaptureFrame(players, neutral, loc, side, upkeep);
    CaptureOwners(players, neutral, loc, side, upkeep);
  }

  // ---------------------------------------------------------------- units

  /** Whether a unit survives the death sweep: it has taken less damage than its life. */
  predicate Alive(u: Units.Unit)
    reads u
  {
    u.damageTaken < u.Effective(Units.Life)
  }

  /** The units `resolve_combat` keeps, in order. */
  function Survivors(us: seq<Units.Unit>): (r: seq<Units.Unit>)
    reads set u | u in us
    ensures |r| <= |us|
  {
    if us == [] then []
    else Survivors(us[..|us| - 1]) + (if Alive(us[|us| - 1]) then [us[|us| - 1]] else [])
  }

  /** When every unit is alive the sweep keeps them all. */
  lemma {:induction false} SurvivorsAllAlive(us: seq<Units.Unit>)
    ensures (forall u :: u in us ==> Alive(u)) ==> Survivors(us) == us
  {
    if us != [] && forall u :: u in us ==> Alive(u) {
      SurvivorsAllAlive(us[..|us| - 1]);
      assert us == us[..|us| - 1] + [us[|us| - 1]];
    }
  }

  /** No unit appears twice. */
  predicate Distinct(us: seq<Units.Unit>)
  {
    forall i, j :: 0 <= i < j < |us| ==> us[i] != us[j]
  }

  /** The sweep keeps exactly the living units. */
  lemma {:induction false} SurvivorsMembers(us: seq<Units.Unit>)
    ensures forall u :: u in Survivors(us) <==> u in us && Alive(u)
  {
    if us != [] {
      var init := us[..|us| - 1];
      SurvivorsMembers(init);
      assert us == init + [us[|us| - 1]];
    }
  }

  /** The sweep keeps distinct units distinct. */
  lemma {:induction false} SurvivorsDistinct(us: seq<Units.Unit>)
    requires Distinct(us)
    ensures Distinct(Survivors(us))
  {
    if us != [] {
      var init := us[..|us| - 1];
      var last := us[|us| - 1];
      SurvivorsDistinct(init);
      SurvivorsMembers(init);
      assert us == init + [last];
      assert last !in init;
    }
  }

  /** A second sweep changes nothing. */
  lemma {:induction false} SurvivorsIdempotent(us: seq<Units.Unit>)
    ensures Survivors(Survivors(us)) == Survivors(us)
  {
    if us != [] {
      var init := us[..|us| - 1];
      var last := us[|us| - 1];
      SurvivorsIdempotent(init);
      var w := Survivors(init);
      var r := Survivors(us);
      if Alive(last) {
        assert r == w + [last];
        assert r[..|r| - 1] == w;
      } else {
        assert r == w + [];
        assert r == w;
      }
    }
  }

  /** The sweep keeps exactly the living units, keeps them distinct, and a second sweep
      changes nothing. */
  lemma SurvivorsProperties(us: seq<Units.Unit>)
    ensures forall u :: u in Survivors(us) <==> u in us && Alive(u)
    ensures Distinct(us) ==> Distinct(Survivors(us))
    ensures Survivors(Survivors(us)) == Survivors(us)
  {
    SurvivorsMembers(us);
    if Distinct(us) {
      SurvivorsDistinct(us);
    }
    SurvivorsIdempotent(us);
  }

  /** A position holding `l` with no earlier `l` is the one `FirstAt` finds. */
  lemma FirstAtUnique(locs: seq<Loc>, l: Loc, j: nat)
    requires j < |locs| && locs[j] == l && forall k :: 0 <= k < j ==> locs[k] != l
    ensures FirstAt(locs, l) == Some(j)
  {
  }

  /** The position of the first location equal to `l`. */
  function FirstAt(locs: seq<Loc>, l: Loc): (r: Option<nat>)
    ensures r.Some? ==> r.value < |locs| && locs[r.value] == l && forall j :: 0 <= j < r.value ==> locs[j] != l
    ensures r.None? <==> l !in locs
  {
    if locs == [] then None
    else if locs[0] == l then Some(0)
    else match FirstAt(locs[1..], l)
      case None => None
      case Some(i) => Some(i + 1)
  }

  /** How many of the targets land on the unit at position j: each target hits the
      first unit standing there. */
  function Hits(locs: seq<Loc>, targets: seq<Loc>, j: nat): nat
  {
    if targets == [] then 0
    else Hits(locs, targets[..|targets| - 1], j) + (if FirstAt(locs, targets[|targets| - 1]) == Some(j) then 1 else 0)
  }

  /** k copies of a modification. */
  function Repeat(m: Units.Modification, k: nat): (r: seq<Units.Modification>)
    ensures |r| == k && forall i :: 0 <= i < k ==> r[i] == m
  {
    seq(k, i => m)
  }

  /** What a card's targets add to the unit at position `j` of a list standing at
      `locs`: one copy of the modification per target that unit is the first at, for a
      modification card, and nothing for any other card. */
  function TargetMods(card: Cards.Card, locs: seq<Loc>, targets: seq<Loc>, j: nat): seq<Units.Modification>
  {
    if card.kind.ModificationCard? then Repeat(card.kind.mod, Hits(locs, targets, j)) else []
  }

  /** Every hit is on a unit standing at a target, and the hits over all units count the
      targets that have a unit under them. */
  lemma {:induction false} HitsOnTargets(locs: seq<Loc>, targets: seq<Loc>, j: nat)
    ensures Hits(locs, targets, j) > 0 ==> j < |locs| && locs[j] in targets
    ensures Hits(locs, targets, j) <= |targets|
  {
    if targets != [] {
      HitsOnTargets(locs, targets[..|targets| - 1], j);
    }
  }

  // ---------------------------------------------------------------- cost

  /** The resources after paying a cost: each resource the player has pays its entry, but
      only for a cost vector with one entry per resource; nothing is clamped. */
  function Deducted(resources: seq<int>, cost: seq<int>): (r: seq<int>)
    ensures |r| == |resources|
  {
    if |cost| != Resource.NumResources then resources
    else seq(|resources|, n requires 0 <= n < |resources| =>
               if n < Resource.NumResources then resources[n] - cost[n] else resources[n])
  }

  /** A full cost the player can afford leaves every resource non-negative and lowers the
      total by the cost's total; a cost of another length changes nothing. */
  lemma DeductedProperties(resources: seq<int>, cost: seq<int>)
    ensures |cost| != Resource.NumResources ==> Deducted(resources, cost) == resources
    ensures |cost| == Resource.NumResources && |resources| == Resource.NumResources ==>
              Cards.CostTotal(Deducted(resources, cost)) == Cards.CostTotal(resources) - Cards.CostTotal(cost)
    ensures (forall n :: 0 <= n < |resources| ==> resources[n] >= 0)
            && (|cost| == Resource.NumResources ==> forall n :: 0 <= n < |resources| && n < |cost| ==> cost[n] <= resources[n])
            ==> forall n :: 0 <= n < |resources| ==> Deducted(resources, cost)[n] >= 0
  {
  }

  /** The server does not check affordability: a card costing more gold than the player
      holds drives gold negative. */
  lemma DeductedCanGoNegative()
    ensures Deducted([0, 0, 0, 0, 0, 0], [1, 0, 0, 0, 0, 0])[0] == -1
  {
  }

  /** `player_callable`: the index of the resource a key names, if any. */
  function NameIndex(key: string, k: nat): (r: Option<nat>)
    requires k <= Resource.NumResources
    ensures r.Some? ==> k <= r.value < Resource.NumResources && Resource.ResourceName(r.value) == key
    ensures r.None? ==> forall n :: k <= n < Resource.NumResources ==> Resource.ResourceName(n) != key
    decreases Resource.NumResources - k
  {
    if k == Resource.NumResources then None
    else if Resource.ResourceName(k) == key then Some(k)
    else NameIndex(key, k + 1)
  }

  /** `player_callable::get_value`: a resource name reads that resource; any other key is
      null; a resource the player has no entry for is read out of range. */
  function PlayerGet(p: Player, key: string): (r: Result<Value>)
  {
    match NameIndex(key, 0)
    case None => Ok(Null)
    case Some(n) => if n < |p.resources| then Ok(Int(p.resources[n])) else Fail("index out of range")
  }

  /** `player_callable::set_value`: a resource name sets that resource to the value's
      integer; any other key changes nothing. */
  function PlayerSet(p: Player, key: string, v: Value): (r: Result<Player>)
  {
    match NameIndex(key, 0)
    case None => Ok(p)
    case Some(n) => if n < |p.resources| then Ok(p.(resources := p.resources[n := AsInt(v)])) else Fail("index out of range")
  }

  /** Reading a resource back after setting it gives the integer set; setting one
      resource leaves every other key's value as it was. */
  lemma PlayerGetAfterSet(p: Player, key: string, other: string, v: Value)
    requires PlayerSet(p, key, v).Ok?
    ensures NameIndex(key, 0).Some? ==> PlayerGet(PlayerSet(p, key, v).value, key) == Ok(Int(AsInt(v)))
    ensures NameIndex(key, 0).None? ==> PlayerSet(p, key, v).value == p
    ensures other != key ==> PlayerGet(PlayerSet(p, key, v).value, other) == PlayerGet(p, other)
  {
    if NameIndex(key, 0).Some? && NameIndex(other, 0).Some? && other != key {
      var a := NameIndex(key, 0).value;
      var b := NameIndex(other, 0).value;
      assert a != b;
    }
  }

  /** The embargo loop of a hand cast. */
  method EmbargoCopies(spells: seq<Cards.HeldCard>, id: string, roll: nat -> nat) returns (r: seq<Cards.HeldCard>)
    ensures r == Embargoed(spells, id, roll)
  {
    r := spells;
    var i := 0;
    while i != |r|
      invariant 0 <= i <= |r| == |spells|
      invariant forall k :: 0 <= k < i ==> r[k] == Embargoed(spells, id, roll)[k]
      invariant forall k :: i <= k < |r| ==> r[k] == spells[k]
    {
      if r[i].card == id {
        r := r[i := r[i].(embargo := 1 + roll(i) % 3)];
      }
      i := i + 1;
    }
  }

  /** The cost loop of `play_card`. */
  method Deduct(resources: seq<int>, cost: seq<int>) returns (r: seq<int>)
    ensures r == Deducted(resources, cost)
  {
    r := resources;
    if |cost| == Resource.NumResources {
      var n := 0;
      while n != Resource.NumResources
        invariant 0 <= n <= Resource.NumResources && |r| == |resources|
        invariant forall k :: 0 <= k < |r| ==> r[k] == (if k < n then resources[k] - cost[k] else resources[k])
      {
        if |r| > n {
          r := r[n := r[n] - cost[n]];
        }
        n := n + 1;
      }
    }
  }

  /** The board after the `land` children of a play: each names an on-board location
      that gets a fresh tile of that land (`roll` standing for the productivity roll);
      a location off the board, or before the game has started, fails the tile
      assertion, and so does a land no terrain is registered for. */
  function LandsOutcome(tiles: seq<Tile>, started: bool, width: int, height: int, lands: seq<LandChild>,
                        terrains: map<string, Terrain>, roll: Loc -> nat): (r: Result<seq<Tile>>)
    requires |tiles| == width * height
    ensures r.Ok? ==> |r.value| == |tiles|
  {
    if lands == [] then Ok(tiles)
    else
      var init := LandsOutcome(tiles, started, width, height, lands[..|lands| - 1], terrains, roll);
      var c := lands[|lands| - 1];
      if init.Fail? then init
      else if !started || !OnBoard(c.loc, width, height) then Fail("ILLEGAL TILE LOCATION")
      else
        var t := NewTile(c.loc.x, c.loc.y, c.land, terrains, roll(c.loc));
        if t.Fail? then Fail(t.reason)
        else
          IndexInRange(c.loc, width, height);
          Ok(init.value[Index(c.loc, width) := t.value])
  }

  /** A play whose land children resolve names only on-board locations. */
  lemma {:induction false} LandsOnBoard(tiles: seq<Tile>, started: bool, width: int, height: int,
                                        lands: seq<LandChild>, terrains: map<string, Terrain>, roll: Loc -> nat, i: nat)
    requires |tiles| == width * height && i < |lands|
    requires LandsOutcome(tiles, started, width, height, lands, terrains, roll).Ok?
    ensures started && OnBoard(lands[i].loc, width, height)
  {
    if i < |lands| - 1 {
      LandsOnBoard(tiles, started, width, height, lands[..|lands| - 1], terrains, roll, i);
    }
  }

  /** After the land children, a location named for the last time by child i holds the
      tile of that child's land, placed at that location. */
  lemma {:induction false} LandsLastWrite(tiles: seq<Tile>, started: bool, width: int, height: int,
                                          lands: seq<LandChild>, terrains: map<string, Terrain>, roll: Loc -> nat, i: nat)
    requires |tiles| == width * height && i < |lands|
    requires LandsOutcome(tiles, started, width, height, lands, terrains, roll).Ok?
    requires forall j :: i < j < |lands| ==> lands[j].loc != lands[i].loc
    ensures var r := LandsOutcome(tiles, started, width, height, lands, terrains, roll).value;
      0 <= Index(lands[i].loc, width) < |r|
      && Ok(r[Index(lands[i].loc, width)]) == NewTile(lands[i].loc.x, lands[i].loc.y, lands[i].land, terrains, roll(lands[i].loc))
  {
    var c := lands[|lands| - 1];
    LandsOnBoard(tiles, started, width, height, lands, terrains, roll, |lands| - 1);
    IndexInRange(c.loc, width, height);
    if i < |lands| - 1 {
      var init := lands[..|lands| - 1];
      LandsLastWrite(tiles, started, width, height, init, terrains, roll, i);
      LandsOnBoard(tiles, started, width, height, lands, terrains, roll, i);
      if Index(lands[i].loc, width) == Index(c.loc, width) {
        IndexInjective(lands[i].loc, c.loc, width, height);
      }
    }
  }

  /** A tile no land child names is untouched. */
  lemma {:induction false} LandsUntouched(tiles: seq<Tile>, started: bool, width: int, height: int,
                                          lands: seq<LandChild>, terrains: map<string, Terrain>, roll: Loc -> nat, k: nat)
    requires |tiles| == width * height && k < |tiles|
    requires LandsOutcome(tiles, started, width, height, lands, terrains, roll).Ok?
    requires forall i :: 0 <= i < |lands| ==> Index(lands[i].loc, width) != k
    ensures LandsOutcome(tiles, started, width, height, lands, terrains, roll).value[k] == tiles[k]
  {
    if lands != [] {
      LandsUntouched(tiles, started, width, height, lands[..|lands| - 1], terrains, roll, k);
    }
  }

  /** The locations of the units, in order. */
  function LocsOf(us: seq<Units.Unit>): (r: seq<Loc>)
    reads set u | u in us
    ensures |r| == |us| && forall j :: 0 <= j < |us| ==> r[j] == us[j].loc
  {
    if us == [] then [] else LocsOf(us[..|us| - 1]) + [us[|us| - 1].loc]
  }

  /** The position of the last unit with the given key: `play_card` keeps overwriting
      its caster while scanning. */
  function LastWithKey(us: seq<Units.Unit>, key: int): (r: Option<nat>)
    ensures r.Some? ==> r.value < |us| && us[r.value].key == key && forall j :: r.value < j < |us| ==> us[j].key != key
    ensures r.None? <==> forall j :: 0 <= j < |us| ==> us[j].key != key
  {
    if us == [] then None
    else if us[|us| - 1].key == key then Some(|us| - 1)
    else LastWithKey(us[..|us| - 1], key)
  }

  /** The spells after a hand cast of card `id`: every copy gets an embargo of
      1 + rand() % 3, where `roll(i)` stands for the i-th spell's `rand()`. */
  function Embargoed(spells: seq<Cards.HeldCard>, id: string, roll: nat -> nat): (r: seq<Cards.HeldCard>)
    ensures |r| == |spells|
    ensures forall i :: 0 <= i < |spells| ==> r[i].card == spells[i].card
    ensures forall i :: 0 <= i < |spells| && spells[i].card == id ==> 1 <= r[i].embargo <= 3
    ensures forall i :: 0 <= i < |spells| && spells[i].card != id ==> r[i] == spells[i]
  {
    seq(|spells|, i requires 0 <= i < |spells| =>
      if spells[i].card == id then spells[i].(embargo := 1 + roll(i) % 3) else spells[i])
  }

  /** `split_into_ints` into the resized gain vector: the parsed integers overwrite the
      leading entries, at most one per resource; the rest keep the old gain. */
  function Overlay(gain: seq<int>, parsed: seq<int>): (r: seq<int>)
    ensures |r| == Resource.NumResources
    ensures forall m :: 0 <= m < Resource.NumResources ==>
              r[m] == if m < |parsed| then parsed[m] else if m < |gain| then gain[m] else 0
  {
    var base := Resize(gain, Resource.NumResources);
    seq(Resource.NumResources, m requires 0 <= m < Resource.NumResources => if m < |parsed| then parsed[m] else base[m])
  }

  /** The three terrains `setup_game` lays down. */
  datatype SetupHex = GrassHex | TowerHex | RockHex

  /** The terrain id `setup_game` passes to the tile parser. */
  function HexName(h: SetupHex): string
  {
    match h
    case GrassHex => "grassland"
    case TowerHex => "tower"
    case RockHex => "rock"
  }

  /** The terrain `setup_game` puts at a location: the two wizard hexes stay grassland;
      elsewhere a roll of 0 in 24 makes a (neutral) tower, then one of 0 in 16 a rock.
      (The grassland pick from a one-entry table needs no roll.) */
  function SetupType(l: Loc, towerRoll: Loc -> nat, rockRoll: Loc -> nat): (r: SetupHex)
    ensures l == Loc(2, 8) || l == Loc(12, 8) ==> r == GrassHex
    ensures r == TowerHex <==> l != Loc(2, 8) && l != Loc(12, 8) && towerRoll(l) % 24 == 0
  {
    if l == Loc(2, 8) || l == Loc(12, 8) then GrassHex
    else if towerRoll(l) % 24 == 0 then TowerHex
    else if rockRoll(l) % 16 == 0 then RockHex
    else GrassHex
  }

  /** Side of the setup board. */
  const SetupSize: int := 16

  /** The tile `setup_game` builds at a location. */
  function SetupTile(l: Loc, terrains: map<string, Terrain>, towerRoll: Loc -> nat, rockRoll: Loc -> nat,
                     tileRoll: Loc -> nat): Result<Tile>
  {
    NewTile(l.x, l.y, HexName(SetupType(l, towerRoll, rockRoll)), terrains, tileRoll(l))
  }

  /** The tile `setup_game` builds, hex by hex. */
  function SetupTiles(terrains: map<string, Terrain>, towerRoll: Loc -> nat, rockRoll: Loc -> nat,
                      tileRoll: Loc -> nat): Loc -> Result<Tile>
  {
    l => SetupTile(l, terrains, towerRoll, rockRoll, tileRoll)
  }

  /** The hexes `setup_game` makes neutral towers. */
  function SetupTowers(towerRoll: Loc -> nat, rockRoll: Loc -> nat): Loc -> bool
  {
    l => SetupType(l, towerRoll, rockRoll) == TowerHex
  }

  /** Every hex of the setup board parses. */
  ghost predicate SetupParses(terrains: map<string, Terrain>, towerRoll: Loc -> nat, rockRoll: Loc -> nat, tileRoll: Loc -> nat)
  {
    forall l :: OnBoard(l, SetupSize, SetupSize) ==> SetupTile(l, terrains, towerRoll, rockRoll, tileRoll).Ok?
  }

  /** The setup loops have built the first n tiles of the row-major board. */
  predicate Built(l: Loc, n: int)
  {
    0 <= l.x < SetupSize && 0 <= l.y && Index(l, SetupSize) < n
  }

  /** One more tile builds exactly the location at that position. */
  lemma BuiltNext(x: int, y: int, n: int, m: int)
    requires 0 <= x < SetupSize && 0 <= y && n == y * SetupSize + x && m == n + 1
    ensures forall l :: Built(l, m) <==> Built(l, n) || l == Loc(x, y)
    ensures Index(Loc(x, y), SetupSize) == n
  {
  }

  /** After the last row every board location is built, and nothing else. */
  lemma BuiltAll()
    ensures forall l :: Built(l, SetupSize * SetupSize) <==> OnBoard(l, SetupSize, SetupSize)
  {
  }

  /** The first n tiles of the setup board are the tiles `tile` gives for their hexes,
      and `towers` holds exactly the hexes among them that `tower` picks. */
  ghost predicate SetupPrefix(tiles: seq<Tile>, towers: set<Loc>, n: int, tile: Loc -> Result<Tile>, tower: Loc -> bool)
  {
    && |tiles| == n
    && (forall l :: Built(l, n) ==> tile(l).Ok? && tiles[Index(l, SetupSize)] == tile(l).value)
    && (forall l :: l in towers <==> Built(l, n) && tower(l))
  }

  /** Building the hex at the next position extends the prefix by one. */
  lemma SetupStep(tiles: seq<Tile>, towers: set<Loc>, x: int, y: int, tile: Loc -> Result<Tile>, tower: Loc -> bool)
    requires 0 <= x < SetupSize && 0 <= y
    requires SetupPrefix(tiles, towers, y * SetupSize + x, tile, tower)
    requires tile(Loc(x, y)).Ok?
    ensures SetupPrefix(tiles + [tile(Loc(x, y)).value], if tower(Loc(x, y)) then towers + {Loc(x, y)} else towers,
                        y * SetupSize + x + 1, tile, tower)
  {
    var n := y * SetupSize + x;
    var loc := Loc(x, y);
    BuiltNext(x, y, n, n + 1);
    var tiles' := tiles + [tile(loc).value];
    forall l | Built(l, n + 1)
      ensures tile(l).Ok? && tiles'[Index(l, SetupSize)] == tile(l).value
    {
      if l != loc {
        assert Built(l, n);
        assert tiles'[Index(l, SetupSize)] == tiles[Index(l, SetupSize)];
      }
    }
  }

  /** The loops of `setup_game`: row by row, each hex gets the tile of the terrain
      `SetupType` picks, and the tower hexes are collected; the first tile whose parse
      fails stops the setup, keeping the towers collected so far. */
  method BuildSetupTiles(terrains: map<string, Terrain>, towerRoll: Loc -> nat, rockRoll: Loc -> nat, tileRoll: Loc -> nat)
    returns (r: Result<seq<Tile>>, towers: set<Loc>)
    ensures r.Ok? <==> SetupParses(terrains, towerRoll, rockRoll, tileRoll)
    ensures r.Ok? ==> SetupPrefix(r.value, towers, SetupSize * SetupSize,
                                  SetupTiles(terrains, towerRoll, rockRoll, tileRoll), SetupTowers(towerRoll, rockRoll))
  {
    var tile := SetupTiles(terrains, towerRoll, rockRoll, tileRoll);
    var tower := SetupTowers(towerRoll, rockRoll);
    var tiles: seq<Tile> := [];
    towers := {};
    var y := 0;
    while y != SetupSize
      invariant 0 <= y <= SetupSize
      invariant SetupPrefix(tiles, towers, y * SetupSize, tile, tower)
    {
      var row;
      ghost var at;
      row, towers, at := BuildSetupRow(y, tiles, towers, tile, tower);
      if row.Fail? {
        SetupFails(at, terrains, towerRoll, rockRoll, tileRoll);
        return Fail(row.reason), towers;
      }
      tiles := row.value;
      y := y + 1;
    }
    SetupComplete(tiles, towers, terrains, towerRoll, rockRoll, tileRoll);
    r := Ok(tiles);
  }

  /** The inner loop of `setup_game`: the hexes of row `y`, left to right; `at` is the
      hex whose tile failed. */
  method BuildSetupRow(y: int, tiles: seq<Tile>, towers: set<Loc>, tile: Loc -> Result<Tile>, tower: Loc -> bool)
    returns (r: Result<seq<Tile>>, towers': set<Loc>, ghost at: Loc)
    requires 0 <= y < SetupSize
    requires SetupPrefix(tiles, towers, y * SetupSize, tile, tower)
    ensures r.Fail? ==> 0 <= at.x < SetupSize && at.y == y && tile(at).Fail?
    ensures r.Ok? ==> SetupPrefix(r.value, towers', (y + 1) * SetupSize, tile, tower)
  {
    var tiles' := tiles;
    towers' := towers;
    at := Loc(0, y);
    var x := 0;
    while x != SetupSize
      invariant 0 <= x <= SetupSize
      invariant SetupPrefix(tiles', towers', y * SetupSize + x, tile, tower)
    {
      var loc := Loc(x, y);
      var t := tile(loc);
      if t.Fail? {
        return Fail(t.reason), if tower(loc) then towers' + {loc} else towers', loc;
      }
      SetupStep(tiles', towers', x, y, tile, tower);
      if tower(loc) {
        towers' := towers' + {loc};
      }
      tiles' := tiles' + [t.value];
      x := x + 1;
    }
    r := Ok(tiles');
  }

  /** A hex of the board that does not parse stops the setup. */
  lemma SetupFails(loc: Loc, terrains: map<string, Terrain>, towerRoll: Loc -> nat, rockRoll: Loc -> nat, tileRoll: Loc -> nat)
    requires 0 <= loc.x < SetupSize && 0 <= loc.y < SetupSize
    requires SetupTile(loc, terrains, towerRoll, rockRoll, tileRoll).Fail?
    ensures !SetupParses(terrains, towerRoll, rockRoll, tileRoll)
  {
    assert OnBoard(loc, SetupSize, SetupSize);
  }

  /** Once every hex is built, every hex parsed. */
  lemma SetupComplete(tiles: seq<Tile>, towers: set<Loc>, terrains: map<string, Terrain>,
                      towerRoll: Loc -> nat, rockRoll: Loc -> nat, tileRoll: Loc -> nat)
    requires SetupPrefix(tiles, towers, SetupSize * SetupSize,
                         SetupTiles(terrains, towerRoll, rockRoll, tileRoll), SetupTowers(towerRoll, rockRoll))
    ensures SetupParses(terrains, towerRoll, rockRoll, tileRoll)
  {
    BuiltAll();
    forall l | OnBoard(l, SetupSize, SetupSize)
      ensures SetupTile(l, terrains, towerRoll, rockRoll, tileRoll).Ok?
    {
      assert Built(l, SetupSize * SetupSize);
      assert SetupTiles(terrains, towerRoll, rockRoll, tileRoll)(l).Ok?;
    }
  }

  /** `game`: the board, the players, the units, the neutral towers, the outgoing message
      queue, the state, the turn and casting pointers and the pass counter. */
  class Game {
    const board: Board
    var players: seq<Player>
    var units: seq<Units.Unit>
    var neutralTowers: set<Loc>
    var outgoing: seq<Message>
    var state: GameState
    var playerTurn: int
    var playerCasting: int
    var passes: int

    /** No unit is listed twice. */
    ghost predicate Valid()
      reads this
    {
      Distinct(units)
    }

    /** `game()`: not started, an empty board, no turn and no caster yet. */
    constructor ()
      ensures Valid() && fresh(board) && board.Valid()
      ensures !board.started && board.width == 0 && board.height == 0 && board.tiles == []
      ensures players == [] && units == [] && neutralTowers == {} && outgoing == []
      ensures state == SetupState && playerTurn == -1 && playerCasting == -1 && passes == 0
    {
      board := new Board();
      players := [];
      units := [];
      neutralTowers := {};
      outgoing := [];
      state := SetupState;
      playerTurn := -1;
      playerCasting := -1;
      passes := 0;
    }

    /** `add_player`: a new player with that name and nothing else. */
    method AddPlayer(name: string)
      modifies this
      ensures players == old(players) + [Player(None, name, [], map[], [], [])]
      ensures units == old(units) && neutralTowers == old(neutralTowers) && outgoing == old(outgoing)
      ensures state == old(state) && playerTurn == old(playerTurn) && playerCasting == old(playerCasting)
      ensures passes == old(passes)
    {
      players := players + [Player(None, name, [], map[], [], [])];
    }

    /** `queue_message`: appends the message, addressed to `nplayer` when that is not
        negative and to everyone otherwise. */
    method QueueMessage(contents: Contents, nplayer: int)
      modifies this
      ensures outgoing == old(outgoing) + [Message(if nplayer >= 0 then [nplayer] else [], contents)]
      ensures players == old(players) && units == old(units) && neutralTowers == old(neutralTowers)
      ensures state == old(state) && playerTurn == old(playerTurn) && playerCasting == old(playerCasting)
      ensures passes == old(passes)
    {
      outgoing := outgoing + [Message(if nplayer >= 0 then [nplayer] else [], contents)];
    }

    /** `swap_outgoing_messages`: the caller receives the queue and the queue is left empty. */
    method SwapOutgoingMessages() returns (msgs: seq<Message>)
      modifies this
      ensures msgs == old(outgoing) && outgoing == []
      ensures players == old(players) && units == old(units) && neutralTowers == old(neutralTowers)
      ensures state == old(state) && playerTurn == old(playerTurn) && playerCasting == old(playerCasting)
      ensures passes == old(passes)
    {
      msgs := outgoing;
      outgoing := [];
    }

    /** `get_unit_at`: the first unit standing at `l`, if any. */
    method GetUnitAt(l: Loc) returns (r: Option<Units.Unit>)
      ensures r.None? <==> forall j :: 0 <= j < |units| ==> units[j].loc != l
      ensures r.Some? <==> FirstAt(LocsOf(units), l).Some?
      ensures r.Some? ==> r.value == units[FirstAt(LocsOf(units), l).value] && r.value.loc == l
    {
      var n := 0;
      while n != |units|
        invariant 0 <= n <= |units|
        invariant forall j :: 0 <= j < n ==> units[j].loc != l
      {
        if units[n].loc == l {
          FirstAtUnique(LocsOf(units), l, n);
          return Some(units[n]);
        }
        n := n + 1;
      }
      return None;
    }

    /** `tower_owner`: the first player holding a tower at `loc` and that tower's
        resource, or -1 and no resource. */
    method TowerOwner(loc: Loc) returns (owner: int, resource: Option<char>)
      ensures owner == OwnerFrom(players, loc, 0)
      ensures owner >= 0 ==> resource == Some(players[owner].towers[loc])
      ensures owner == -1 ==> resource == None
    {
      var index := 0;
      while index != |players|
        invariant 0 <= index <= |players|
        invariant OwnerFrom(players, loc, 0) == OwnerFrom(players, loc, index)
      {
        if loc in players[index].towers {
          return index, Some(players[index].towers[loc]);
        }
        index := index + 1;
      }
      return -1, None;
    }

    /** `tower_locs`: the neutral towers and every player's towers. */
    method TowerLocs() returns (r: set<Loc>)
      ensures forall l :: l in r <==> l in neutralTowers || exists i :: 0 <= i < |players| && l in players[i].towers
    {
      r := neutralTowers;
      var n := 0;
      while n != |players|
        invariant 0 <= n <= |players|
        invariant forall l :: l in r <==> l in neutralTowers || exists i :: 0 <= i < n && l in players[i].towers
      {
        r := r + players[n].towers.Keys;
        n := n + 1;
      }
    }

    /** `resolve_combat`: removes the units whose damage has reached their life. */
    method ResolveCombat()
      modifies this
      ensures units == old(Survivors(units))
      ensures forall u :: u in units ==> u in old(units) && Alive(u)
      ensures old(Distinct(units)) ==> Distinct(units)
      ensures old(forall u :: u in units ==> Alive(u)) ==> units == old(units)
      ensures players == old(players) && neutralTowers == old(neutralTowers) && outgoing == old(outgoing)
      ensures state == old(state) && playerTurn == old(playerTurn) && playerCasting == old(playerCasting)
      ensures passes == old(passes)
    {
      var kept := Sweep(units);
      units := kept;
    }

    /** The search loop of `capture_tower`: the first player other than the mover that
        holds a tower at `loc` loses it. */
    static method TakeFromOther(players: seq<Player>, loc: Loc, side: int) returns (ps: seq<Player>, found: bool)
      ensures found <==> FirstOtherOwner(players, loc, side, 0).Some?
      ensures !found ==> ps == players
      ensures found ==> var k := FirstOtherOwner(players, loc, side, 0).value;
                        ps == players[k := players[k].(towers := players[k].towers - {loc})]
    {
      ps, found := players, false;
      var n := 0;
      while n != |ps| && !found
        invariant 0 <= n <= |ps| == |players|
        decreases |ps| - n, !found
        invariant !found ==> ps == players
        invariant !found ==> FirstOtherOwner(players, loc, side, 0) == FirstOtherOwner(players, loc, side, n)
        invariant found ==> var k := FirstOtherOwner(players, loc, side, 0);
                    k.Some? && ps == players[k.value := players[k.value].(towers := players[k.value].towers - {loc})]
      {
        if n != side && loc in ps[n].towers {
          ps := ps[n := ps[n].(towers := ps[n].towers - {loc})];
          found := true;
        } else {
          n := n + 1;
        }
      }
    }

    /** `capture_tower`: the mover takes a neutral tower, or the tower of the first other
        player holding one at `loc`, for its side (when that side has a player), with the
        mover's resource; otherwise nothing changes. */
    method CaptureTower(loc: Loc, u: Units.Unit) returns (r: Result<()>)
      modifies this
      ensures r.Ok? <==> CaptureOutcome(old(players), old(neutralTowers), loc, u.side, u.kind.upkeep).Ok?
      ensures r.Ok? ==> players == CaptureOutcome(old(players), old(neutralTowers), loc, u.side, u.kind.upkeep).value
      ensures r.Ok? ==> neutralTowers == old(neutralTowers) - {loc}
      ensures units == old(units) && outgoing == old(outgoing)
      ensures state == old(state) && playerTurn == old(playerTurn) && playerCasting == old(playerCasting)
      ensures passes == old(passes)
    {
      var nplayer := u.side;
      var isTower := loc in neutralTowers;
      if isTower {
        neutralTowers := neutralTowers - {loc};
      } else {
        var ps;
        ps, isTower := TakeFromOther(players, loc, nplayer);
        players := ps;
        neutralTowers := neutralTowers - {loc};
      }
      if !isTower {
        return Ok(());
      }
      if 0 <= nplayer < |players| {
        var rt := Units.ResourceType(u, players[nplayer].resourceGain);
        if rt.Fail? {
          return Fail(rt.reason);
        }
        if rt.value >= Resource.NumResources {
          return Fail("resource_id out of range");
        }
        var c := Resource.ResourceId(rt.value);
        players := players[nplayer := players[nplayer].(towers := players[nplayer].towers[loc := c])];
      }
      return Ok(());
    }

    /** The unit's part of a move: it stands at `to` and has moved. */
    method MoveUnit(u: Units.Unit, to: Loc)
      modifies u
      ensures u.loc == to && u.hasMoved
      ensures u.lifeBase == old(u.lifeBase) && u.damageTaken == old(u.damageTaken) && u.mods == old(u.mods)
    {
      u.SetLoc(to);
      u.SetMoved(true);
    }

    /** The `move` message: looks up the first unit at `from` and announces the move;
        a missing unit then fails the assertion. Otherwise the unit moves to `to`, is
        marked moved and may capture a tower there, and the new state is sent. No path
        is checked. */
    method HandleMove(from: Loc, to: Loc) returns (r: Result<()>)
      requires Valid()
      modifies this, units
      ensures Valid()
      ensures units == old(units)
      ensures old(FirstAt(LocsOf(units), from)).None? ==> r.Fail?
      ensures r.Ok? ==> old(FirstAt(LocsOf(units), from)).Some?
      ensures r.Ok? ==> var i := old(FirstAt(LocsOf(units), from)).value;
        units[i].loc == to && units[i].hasMoved
        && CaptureOutcome(old(players), old(neutralTowers), to, units[i].side, units[i].kind.upkeep).Ok?
        && players == CaptureOutcome(old(players), old(neutralTowers), to, units[i].side, units[i].kind.upkeep).value
        && forall j :: 0 <= j < |units| && j != i ==> units[j].loc == old(units[j].loc) && units[j].hasMoved == old(units[j].hasMoved)
      ensures r.Ok? ==> neutralTowers == old(neutralTowers) - {to}
      ensures r.Ok? ==> outgoing == old(outgoing) + [Message([], MoveAnim(from, to)), Message([], Snapshot)]
      ensures state == old(state) && playerTurn == old(playerTurn) && playerCasting == old(playerCasting)
      ensures passes == old(passes)
    {
      var u := GetUnitAt(from);
      ghost var i0 := FirstAt(LocsOf(units), from);
      QueueMessage(MoveAnim(from, to), -1);
      if u.None? {
        return Fail("Could not find unit at from loc");
      }
      r := MoveAndCapture(u.value, to, i0.value);
    }

    /** The part of the `move` message after the unit is found: the unit moves and is
        marked moved, it may capture a tower at `to`, and the new state is sent. */
    method MoveAndCapture(u: Units.Unit, to: Loc, ghost i: nat) returns (r: Result<()>)
      requires Valid() && i < |units| && units[i] == u
      modifies this, u
      ensures units == old(units) && u.loc == to && u.hasMoved
      ensures forall j :: 0 <= j < |units| && j != i ==> units[j].loc == old(units[j].loc) && units[j].hasMoved == old(units[j].hasMoved)
      ensures r.Ok? <==> CaptureOutcome(old(players), old(neutralTowers), to, u.side, u.kind.upkeep).Ok?
      ensures r.Ok? ==> players == CaptureOutcome(old(players), old(neutralTowers), to, u.side, u.kind.upkeep).value
      ensures r.Ok? ==> neutralTowers == old(neutralTowers) - {to}
      ensures r.Ok? ==> outgoing == old(outgoing) + [Message([], Snapshot)]
      ensures state == old(state) && playerTurn == old(playerTurn) && playerCasting == old(playerCasting)
      ensures passes == old(passes)
    {
      assert forall j :: 0 <= j < |units| && j != i ==> units[j] != u;
      MoveUnit(u, to);
      var captured := CaptureTower(to, u);
      if captured.Fail? {
        return captured;
      }
      QueueMessage(Snapshot, -1);
      r := Ok(());
    }

    /** The `spells` message: the player's spells become the deck read from the text
        (`known` holds the card ids `card::get` knows), the parsed gains overwrite the
        leading entries of the resized gain vector, the resources become the gains, and
        the new state is sent. An unknown player or an unreadable deck fails. */
    method HandleSpells(nplayer: int, spells: string, gain: seq<int>, known: set<string>) returns (r: Result<()>)
      modifies this
      ensures r.Ok? <==> 0 <= nplayer < |old(players)| && Cards.ReadItems(Text.Split(spells, ','), known).Ok?
      ensures r.Ok? ==> var g := Overlay(old(players)[nplayer].resourceGain, gain);
        players == old(players)[nplayer := old(players)[nplayer].(spells := Cards.ReadItems(Text.Split(spells, ','), known).value,
                                                                resourceGain := g, resources := g)]
      ensures r.Ok? ==> outgoing == old(outgoing) + [Message([], Snapshot)]
      ensures units == old(units) && neutralTowers == old(neutralTowers)
      ensures state == old(state) && playerTurn == old(playerTurn) && playerCasting == old(playerCasting)
      ensures passes == old(passes)
    {
      if !(0 <= nplayer < |players|) {
        return Fail("index out of range");
      }
      var deck := Cards.ReadDeck(spells, known);
      if deck.Fail? {
        return Fail(deck.reason);
      }
      var g := Overlay(players[nplayer].resourceGain, gain);
      players := players[nplayer := players[nplayer].(spells := deck.value, resourceGain := g, resources := g)];
      QueueMessage(Snapshot, -1);
      r := Ok(());
    }

    /** The caster and cost part of `play_card`: a cast by a unit finds the last unit
        with the caster's key (none fails the assertion) and marks it moved when the
        card taps its caster; a cast from the hand embargoes every copy of the card;
        then the cost is deducted. */
    method PayForCard(nplayer: int, card: Cards.Card, caster: Option<int>, roll: nat -> nat) returns (r: Result<()>)
      requires Valid() && 0 <= nplayer < |players|
      modifies this, units
      ensures units == old(units) && neutralTowers == old(neutralTowers) && outgoing == old(outgoing)
      ensures state == old(state) && playerTurn == old(playerTurn) && playerCasting == old(playerCasting)
      ensures passes == old(passes)
      ensures r.Fail? <==> caster.Some? && LastWithKey(units, caster.value).None?
      ensures r.Ok? ==> var p := old(players)[nplayer];
        players == old(players)[nplayer := p.(spells := if caster.None? then Embargoed(p.spells, card.id, roll) else p.spells,
                                              resources := Deducted(p.resources, card.cost))]
      ensures r.Ok? && caster.Some? && card.tapsCaster ==>
                LastWithKey(units, caster.value).Some? && units[LastWithKey(units, caster.value).value].hasMoved
      ensures forall j :: 0 <= j < |units| && !(r.Ok? && caster.Some? && card.tapsCaster && LastWithKey(units, caster.value) == Some(j)) ==>
                units[j].hasMoved == old(units[j].hasMoved)
      ensures forall j :: 0 <= j < |units| ==>
                units[j].loc == old(units[j].loc) && units[j].mods == old(units[j].mods)
                && units[j].damageTaken == old(units[j].damageTaken) && units[j].lifeBase == old(units[j].lifeBase)
    {
      var p := players[nplayer];
      if caster.Some? {
        var found: Option<nat> := None;
        var n := 0;
        while n != |units|
          invariant 0 <= n <= |units|
          invariant found == LastWithKey(units[..n], caster.value)
        {
          assert units[..n + 1][..n] == units[..n];
          if units[n].key == caster.value {
            found := Some(n);
          }
          n := n + 1;
        }
        assert units[..n] == units;
        if found.None? {
          return Fail("COULD NOT FIND SPELL CASTER");
        }
        if card.tapsCaster {
          units[found.value].SetMoved(true);
        }
      } else {
        var spells := EmbargoCopies(p.spells, card.id, roll);
        p := p.(spells := spells);
      }
      var resources := Deduct(p.resources, card.cost);
      p := p.(resources := resources);
      players := players[nplayer := p];
      r := Ok(());
    }

    /** The `land` children of a play: each writes a fresh tile at its location. */
    method ResolveLands(lands: seq<LandChild>, terrains: map<string, Terrain>, roll: Loc -> nat) returns (r: Result<()>)
      requires board.Valid()
      modifies board
      ensures board.started == old(board.started) && board.width == old(board.width) && board.height == old(board.height)
      ensures board.Valid()
      ensures var o := LandsOutcome(old(board.tiles), board.started, board.width, board.height, lands, terrains, roll);
        (r.Ok? <==> o.Ok?) && (r.Ok? ==> board.tiles == o.value)
    {
      var n := 0;
      while n != |lands|
        invariant 0 <= n <= |lands| && board.Valid()
        invariant board.started == old(board.started) && board.width == old(board.width) && board.height == old(board.height)
        invariant LandsOutcome(old(board.tiles), board.started, board.width, board.height, lands[..n], terrains, roll) == Ok(board.tiles)
      {
        assert lands[..n + 1][..n] == lands[..n];
        var c := lands[n];
        var t := board.GetTile(c.loc);
        if t.None? {
          FailFrom(old(board.tiles), board.started, board.width, board.height, lands, terrains, roll, n + 1);
          return Fail("ILLEGAL TILE LOCATION");
        }
        var tile := NewTile(c.loc.x, c.loc.y, c.land, terrains, roll(c.loc));
        if tile.Fail? {
          FailFrom(old(board.tiles), board.started, board.width, board.height, lands, terrains, roll, n + 1);
          return Fail(tile.reason);
        }
        board.tiles := board.tiles[t.value := tile.value];
        n := n + 1;
      }
      assert lands[..n] == lands;
      r := Ok(());
    }

    /** The `monster` children of a play: each builds a unit from the prototype of its
        type for the playing side at its location, already marked moved. A type with no
        prototype fails. */
    method ResolveMonsters(nplayer: int, monsters: seq<MonsterChild>, protos: map<string, Units.Unit>,
                           keys: Units.KeyCounter) returns (r: Result<()>, ghost created: seq<Units.Unit>)
      requires Valid()
      modifies this, keys
      ensures Valid()
      ensures players == old(players) && neutralTowers == old(neutralTowers) && outgoing == old(outgoing)
      ensures state == old(state) && playerTurn == old(playerTurn) && playerCasting == old(playerCasting)
      ensures passes == old(passes)
      ensures r.Ok? <==> forall i :: 0 <= i < |monsters| ==> monsters[i].kind in protos
      ensures r.Fail? ==> units == old(units)
      ensures r.Ok? ==> |created| == |monsters| && units == old(units) + created
      ensures r.Ok? ==> forall j :: 0 <= j < |created| ==>
                fresh(created[j]) && created[j].side == nplayer && created[j].loc == monsters[j].loc
                && created[j].kind == protos[monsters[j].kind].kind && created[j].hasMoved
                && created[j].key == old(keys.next) + j
      ensures r.Ok? ==> forall j :: 0 <= j < |created| ==>
                created[j].mods == old(protos[monsters[j].kind].mods)
                && created[j].lifeBase == old(protos[monsters[j].kind].lifeBase)
                && created[j].damageTaken == old(protos[monsters[j].kind].damageTaken)
    {
      var us := units;
      created := [];
      var n := 0;
      while n != |monsters|
        modifies keys
        invariant 0 <= n <= |monsters| && |created| == n
        invariant us == old(units) + created && Distinct(us)
        invariant keys.next == old(keys.next) + n
        invariant forall i :: 0 <= i < n ==> monsters[i].kind in protos
        invariant forall j :: 0 <= j < n ==>
                    fresh(created[j]) && created[j].side == nplayer && created[j].loc == monsters[j].loc
                    && created[j].kind == protos[monsters[j].kind].kind && created[j].hasMoved
                    && created[j].key == old(keys.next) + j
        invariant forall j :: 0 <= j < n ==>
                    created[j].mods == old(protos[monsters[j].kind].mods)
                    && created[j].lifeBase == old(protos[monsters[j].kind].lifeBase)
                    && created[j].damageTaken == old(protos[monsters[j].kind].damageTaken)
      {
        var m := monsters[n];
        if m.kind !in protos {
          return Fail("unknown unit prototype"), created;
        }
        var u := new Units.Unit.FromPrototype(protos[m.kind], nplayer, m.loc, keys);
        u.SetMoved(true);
        us := us + [u];
        created := created + [u];
        n := n + 1;
      }
      units := us;
      r := Ok(());
    }

    /** The `target` children of a play: the first unit at each target receives the
        card's modification, once per target naming its hex; for any other card the
        lookups change nothing. */
    method ResolveTargets(card: Cards.Card, targets: seq<Loc>)
      requires Valid()
      modifies units
      ensures LocsOf(units) == old(LocsOf(units))
      ensures forall j :: 0 <= j < |units| ==> units[j].mods == old(units[j].mods) + TargetMods(card, LocsOf(units), targets, j)
      ensures forall j :: 0 <= j < |units| ==>
                units[j].loc == old(units[j].loc) && units[j].hasMoved == old(units[j].hasMoved)
                && units[j].lifeBase == old(units[j].lifeBase) && units[j].damageTaken == old(units[j].damageTaken)
      ensures units == old(units)
      ensures forall u :: u in old(units) ==> u.loc == old(u.loc) && u.hasMoved == old(u.hasMoved)
    {
      if card.kind.ModificationCard? {
        ApplyTargets(units, card.kind.mod, targets, LocsOf(units));
      }
    }

    /** `resolve_card`: the land children, then the monster children, then the target
        children. The card's own `on_play` formula is not part of this model. */
    method ResolveCard(nplayer: int, card: Cards.Card, play: Play, terrains: map<string, Terrain>,
                       protos: map<string, Units.Unit>, keys: Units.KeyCounter, tileRoll: Loc -> nat)
      returns (r: Result<()>, ghost created: seq<Units.Unit>)
      requires Valid() && board.Valid()
      modifies this, units, board, keys
      ensures board.started == old(board.started) && board.width == old(board.width) && board.height == old(board.height)
      ensures Valid() && board.Valid()
      ensures r.Ok? <==> LandsOutcome(old(board.tiles), board.started, board.width, board.height,
                                      play.lands, terrains, tileRoll).Ok?
                         && forall i :: 0 <= i < |play.monsters| ==> play.monsters[i].kind in protos
      ensures r.Ok? ==> var o := LandsOutcome(old(board.tiles), board.started, board.width, board.height,
                                              play.lands, terrains, tileRoll);
                        o.Ok? && board.tiles == o.value
      ensures r.Ok? ==> |created| == |play.monsters| && units == old(units) + created
      ensures r.Ok? ==> forall j :: 0 <= j < |old(units)| ==>
                units[j].mods == old(units[j].mods) + TargetMods(card, LocsOf(units), play.targets, j)
                && units[j].loc == old(units[j].loc) && units[j].hasMoved == old(units[j].hasMoved)
                && units[j].lifeBase == old(units[j].lifeBase) && units[j].damageTaken == old(units[j].damageTaken)
      ensures r.Ok? ==> forall j :: 0 <= j < |created| ==>
                created[j].side == nplayer && created[j].loc == play.monsters[j].loc && created[j].hasMoved
      ensures players == old(players) && neutralTowers == old(neutralTowers) && outgoing == old(outgoing)
      ensures state == old(state) && playerTurn == old(playerTurn) && playerCasting == old(playerCasting)
      ensures passes == old(passes)
    {
      created := [];
      r := ResolveLands(play.lands, terrains, tileRoll);
      if r.Fail? {
        return r, created;
      }
      r, created := ResolveUnits(nplayer, card, play, protos, keys);
    }

    /** The unit part of `resolve_card`: the monster children, then the target children. */
    method ResolveUnits(nplayer: int, card: Cards.Card, play: Play, protos: map<string, Units.Unit>,
                        keys: Units.KeyCounter) returns (r: Result<()>, ghost created: seq<Units.Unit>)
      requires Valid()
      modifies this, units, keys
      ensures Valid()
      ensures r.Ok? <==> forall i :: 0 <= i < |play.monsters| ==> play.monsters[i].kind in protos
      ensures r.Ok? ==> |created| == |play.monsters| && units == old(units) + created
      ensures r.Ok? ==> forall j :: 0 <= j < |old(units)| ==>
                units[j].mods == old(units[j].mods) + TargetMods(card, LocsOf(units), play.targets, j)
                && units[j].loc == old(units[j].loc) && units[j].hasMoved == old(units[j].hasMoved)
                && units[j].lifeBase == old(units[j].lifeBase) && units[j].damageTaken == old(units[j].damageTaken)
      ensures r.Ok? ==> forall j :: 0 <= j < |created| ==>
                created[j].side == nplayer && created[j].loc == play.monsters[j].loc && created[j].hasMoved
      ensures r.Ok? ==> forall j :: 0 <= j < |created| ==>
                created[j].mods == old(protos[play.monsters[j].kind].mods)
                                   + TargetMods(card, LocsOf(units), play.targets, |old(units)| + j)
      ensures players == old(players) && neutralTowers == old(neutralTowers) && outgoing == old(outgoing)
      ensures state == old(state) && playerTurn == old(playerTurn) && playerCasting == old(playerCasting)
      ensures passes == old(passes)
    {
      r, created := ResolveMonsters(nplayer, play.monsters, protos, keys);
      if r.Fail? {
        return r, created;
      }
      ResolveTargets(card, play.targets);
    }

    /** The cost and resolution part of `play_card`, before the sweep: the caster or the
        hand pays, then the card resolves. */
    method PayAndResolve(nplayer: int, card: Cards.Card, play: Play, terrains: map<string, Terrain>,
                         protos: map<string, Units.Unit>, keys: Units.KeyCounter, roll: nat -> nat, tileRoll: Loc -> nat)
      returns (r: Result<()>, ghost created: seq<Units.Unit>)
      requires Valid() && board.Valid() && 0 <= nplayer < |players|
      modifies this, units, board, keys
      ensures board.started == old(board.started) && board.width == old(board.width) && board.height == old(board.height)
      ensures Valid() && board.Valid()
      ensures r.Ok? <==> (play.caster.Some? ==> LastWithKey(old(units), play.caster.value).Some?)
                         && LandsOutcome(old(board.tiles), board.started, board.width, board.height,
                                         play.lands, terrains, tileRoll).Ok?
                         && forall i :: 0 <= i < |play.monsters| ==> play.monsters[i].kind in protos
      ensures r.Ok? ==> var p := old(players)[nplayer];
        players == old(players)[nplayer := p.(spells := if play.caster.None? then Embargoed(p.spells, card.id, roll) else p.spells,
                                              resources := Deducted(p.resources, card.cost))]
      ensures r.Ok? ==> var o := LandsOutcome(old(board.tiles), board.started, board.width, board.height,
                                              play.lands, terrains, tileRoll);
                        o.Ok? && board.tiles == o.value
      ensures r.Ok? ==> |created| == |play.monsters| && units == old(units) + created
      ensures r.Ok? ==> forall j :: 0 <= j < |created| ==>
                created[j].side == nplayer && created[j].loc == play.monsters[j].loc && created[j].hasMoved
      ensures r.Ok? ==> forall j :: 0 <= j < |old(units)| ==>
                units[j].mods == old(units[j].mods) + TargetMods(card, LocsOf(units), play.targets, j)
                && units[j].loc == old(units[j].loc) && units[j].lifeBase == old(units[j].lifeBase)
                && units[j].damageTaken == old(units[j].damageTaken)
      ensures r.Ok? ==> forall j :: 0 <= j < |old(units)| ==>
                units[j].hasMoved == (old(units[j].hasMoved)
                                      || (play.caster.Some? && card.tapsCaster
                                          && LastWithKey(old(units), play.caster.value) == Some(j)))
      ensures neutralTowers == old(neutralTowers) && outgoing == old(outgoing) && state == old(state)
      ensures playerTurn == old(playerTurn) && playerCasting == old(playerCasting) && passes == old(passes)
    {
      created := [];
      r := PayForCard(nplayer, card, play.caster, roll);
      if r.Fail? {
        return r, created;
      }
      r, created := ResolveCard(nplayer, card, play, terrains, protos, keys, tileRoll);
    }

    /** `play_card`: the caster or the hand pays, the card resolves, the dead are swept
        and a snapshot is queued for everyone. */
    method PlayCard(nplayer: int, card: Cards.Card, play: Play, terrains: map<string, Terrain>,
                    protos: map<string, Units.Unit>, keys: Units.KeyCounter, roll: nat -> nat, tileRoll: Loc -> nat)
      returns (r: Result<()>, ghost created: seq<Units.Unit>)
      requires Valid() && board.Valid() && 0 <= nplayer < |players|
      modifies this, units, board, keys
      ensures board.started == old(board.started) && board.width == old(board.width) && board.height == old(board.height)
      ensures Valid() && board.Valid()
      ensures r.Ok? <==> (play.caster.Some? ==> LastWithKey(old(units), play.caster.value).Some?)
                         && LandsOutcome(old(board.tiles), board.started, board.width, board.height,
                                         play.lands, terrains, tileRoll).Ok?
                         && forall i :: 0 <= i < |play.monsters| ==> play.monsters[i].kind in protos
      ensures r.Ok? ==> var p := old(players)[nplayer];
        players == old(players)[nplayer := p.(spells := if play.caster.None? then Embargoed(p.spells, card.id, roll) else p.spells,
                                              resources := Deducted(p.resources, card.cost))]
      ensures r.Ok? ==> var o := LandsOutcome(old(board.tiles), board.started, board.width, board.height,
                                              play.lands, terrains, tileRoll);
                        o.Ok? && board.tiles == o.value
      ensures r.Ok? ==> |created| == |play.monsters|
      ensures r.Ok? ==> forall u :: u in units ==> Alive(u) && (u in old(units) || u in created)
      ensures r.Ok? ==> forall j :: 0 <= j < |created| ==>
                created[j].side == nplayer && created[j].loc == play.monsters[j].loc && created[j].hasMoved
      ensures r.Ok? ==> outgoing == old(outgoing) + [Message([], Snapshot)]
      ensures neutralTowers == old(neutralTowers) && state == old(state) && passes == old(passes)
      ensures playerTurn == old(playerTurn) && playerCasting == old(playerCasting)
    {
      r, created := PayAndResolve(nplayer, card, play, terrains, protos, keys, roll, tileRoll);
      if r.Fail? {
        return r, created;
      }
      SweepAndSnapshot();
    }

    /** `play` (`play_card` then the pass reset): an unknown card or player fails; the
        cost is paid, the card is resolved, the dead are swept, a snapshot is queued and
        the pass counter is reset. `cards` is the card registry, `protos` the unit
        prototypes, `terrains` the terrain registry, `roll` and `tileRoll` the random
        draws. */
    method HandlePlay(nplayer: int, play: Play, cards: map<string, Cards.Card>, terrains: map<string, Terrain>,
                      protos: map<string, Units.Unit>, keys: Units.KeyCounter, roll: nat -> nat, tileRoll: Loc -> nat)
      returns (r: Result<()>, ghost created: seq<Units.Unit>)
      requires Valid() && board.Valid()
      modifies this, units, board, keys
      ensures board.started == old(board.started) && board.width == old(board.width) && board.height == old(board.height)
      ensures Valid() && board.Valid()
      ensures play.spell !in cards || !(0 <= nplayer < |old(players)|) ==> r.Fail?
      ensures r.Ok? ==> play.spell in cards && 0 <= nplayer < |old(players)|
      ensures r.Ok? ==> var card := cards[play.spell]; var p := old(players)[nplayer];
        players == old(players)[nplayer := p.(spells := if play.caster.None? then Embargoed(p.spells, card.id, roll) else p.spells,
                                              resources := Deducted(p.resources, card.cost))]
      ensures r.Ok? ==> var o := LandsOutcome(old(board.tiles), board.started, board.width, board.height,
                                              play.lands, terrains, tileRoll);
                        o.Ok? && board.tiles == o.value
      ensures r.Ok? <==> play.spell in cards && 0 <= nplayer < |old(players)|
                         && (play.caster.Some? ==> LastWithKey(old(units), play.caster.value).Some?)
                         && LandsOutcome(old(board.tiles), board.started, board.width, board.height,
                                         play.lands, terrains, tileRoll).Ok?
                         && forall i :: 0 <= i < |play.monsters| ==> play.monsters[i].kind in protos
      ensures r.Ok? ==> |created| == |play.monsters|
      ensures r.Ok? ==> forall u :: u in units ==> Alive(u) && (u in old(units) || u in created)
      ensures r.Ok? ==> forall j :: 0 <= j < |created| ==>
                created[j].side == nplayer && created[j].loc == play.monsters[j].loc && created[j].hasMoved
      ensures r.Ok? ==> passes == 0 && outgoing == old(outgoing) + [Message([], Snapshot)]
      ensures neutralTowers == old(neutralTowers) && state == old(state)
      ensures playerTurn == old(playerTurn) && playerCasting == old(playerCasting)
    {
      created := [];
      if play.spell !in cards {
        return Fail("CARD NOT FOUND"), created;
      }
      if !(0 <= nplayer < |players|) {
        return Fail("player index out of range"), created;
      }
      r, created := PlayCard(nplayer, cards[play.spell], play, terrains, protos, keys, roll, tileRoll);
      if r.Fail? {
        return r, created;
      }
      passes := 0;
      r := Ok(());
    }

    /** The end of `play_card`: the dead are swept and a snapshot is queued for everyone. */
    method SweepAndSnapshot()
      requires Valid()
      modifies this
      ensures Valid() && units == old(Survivors(units))
      ensures forall u :: u in units ==> u in old(units) && Alive(u)
      ensures outgoing == old(outgoing) + [Message([], Snapshot)]
      ensures players == old(players) && neutralTowers == old(neutralTowers)
      ensures state == old(state) && playerTurn == old(playerTurn) && playerCasting == old(playerCasting)
      ensures passes == old(passes)
    {
      ResolveCombat();
      QueueMessage(Snapshot, -1);
    }

    /** `resolve_combat` again while every unit is alive: nothing is removed. */
    method ResweepLiving()
      requires forall u :: u in units ==> Alive(u)
      modifies this
      ensures units == old(units) && forall u :: u in units ==> Alive(u)
      ensures players == old(players) && neutralTowers == old(neutralTowers) && outgoing == old(outgoing)
      ensures state == old(state) && playerTurn == old(playerTurn) && playerCasting == old(playerCasting)
      ensures passes == old(passes)
    {
      ResolveCombat();
    }

    /** The round-completing branch of `end_turn`, entered with every unit alive: the
        passes reset, the dead are swept (none are), the acting player must exist, the
        players' round runs, the turn pointer moves on, the casting pointer follows it and
        every unit starts a new turn. */
    method CompleteRound(nplayer: int) returns (r: Result<()>)
      requires Valid() && forall u :: u in units ==> Alive(u)
      modifies this, set u | u in units
      ensures units == old(units) && passes == 0
      ensures neutralTowers == old(neutralTowers) && state == old(state) && outgoing == old(outgoing)
      ensures !(0 <= nplayer < |old(players)|) ==> r.Fail?
      ensures r.Ok? ==> players == RoundPlayers(old(players), units)
                        && playerTurn == Next(old(playerTurn), |players|) && playerCasting == playerTurn
      ensures r.Ok? ==> forall j :: 0 <= j < |units| ==>
                !units[j].hasMoved && units[j].path == []
                && units[j].mods == Units.Surviving(old(units[j].mods), Units.EndOfTurn)
      ensures r.Fail? ==> players == old(players) && playerTurn == old(playerTurn) && playerCasting == old(playerCasting)
      ensures forall j :: 0 <= j < |units| ==>
                units[j].loc == old(units[j].loc) && units[j].lifeBase == old(units[j].lifeBase)
                && units[j].damageTaken == old(units[j].damageTaken)
      ensures r.Fail? ==> forall j :: 0 <= j < |units| ==>
                units[j].hasMoved == old(units[j].hasMoved) && units[j].path == old(units[j].path)
                && units[j].mods == old(units[j].mods)
    {
      passes := 0;
      ResweepLiving();
      if !(0 <= nplayer < |players|) {
        return Fail("player index out of range");
      }
      ResweepLiving();
      var ps := CompleteRoundPlayers(players, units);
      if ps.Fail? {
        return Fail(ps.reason);
      }
      players := ps.value;
      playerTurn := Next(playerTurn, |players|);
      playerCasting := playerTurn;
      NewTurnAll(units);
      passes := 0;
      r := Ok(());
    }

    /** `end_turn`: a skip counts one more pass and anything else resets the count; the
        casting pointer moves on and the dead are swept. When the passes reach the
        player count the round completes: the acting player must exist, every player's
        embargoes count down and resources accrue against upkeep, the turn pointer moves
        on, the casting pointer follows it, every unit starts a new turn and the passes
        reset. Then a snapshot and a new-turn notice naming the casting player are
        queued. The computer players' replies are not part of this model. */
    method EndTurn(nplayer: int, skip: bool) returns (r: Result<()>)
      requires Valid()
      modifies this, units
      ensures Valid()
      ensures units == old(Survivors(units))
      ensures neutralTowers == old(neutralTowers) && state == old(state)
      ensures PassesAfter(old(passes), skip) < |old(players)| ==>
                players == old(players) && playerTurn == old(playerTurn)
                && passes == PassesAfter(old(passes), skip) && playerCasting == Next(old(playerCasting), |players|)
      ensures PassesAfter(old(passes), skip) >= |old(players)| && !(0 <= nplayer < |old(players)|) ==> r.Fail?
      ensures PassesAfter(old(passes), skip) >= |old(players)| && r.Ok? ==>
                players == RoundPlayers(old(players), units) && passes == 0
                && playerTurn == Next(old(playerTurn), |players|) && playerCasting == playerTurn
      ensures PassesAfter(old(passes), skip) >= |old(players)| && r.Ok? ==>
                forall u :: u in old(units) && u in units ==>
                  !u.hasMoved && u.path == [] && u.mods == Units.Surviving(old(u.mods), Units.EndOfTurn)
      ensures PassesAfter(old(passes), skip) < |old(players)| ==>
                forall u :: u in old(units) && u in units ==>
                  u.hasMoved == old(u.hasMoved) && u.path == old(u.path) && u.mods == old(u.mods)
      ensures forall u :: u in old(units) && u in units ==>
                u.loc == old(u.loc) && u.lifeBase == old(u.lifeBase) && u.damageTaken == old(u.damageTaken)
      ensures r.Ok? ==> 0 <= playerCasting < |players|
                        && outgoing == old(outgoing) + [Message([], Snapshot), Message([], NewTurnNotice(players[playerCasting].name))]
    {
      CountPass(skip);
      if passes >= |players| {
        var round := CompleteRound(nplayer);
        if round.Fail? {
          return round;
        }
      }
      r := AnnounceTurn();
    }

    /** The opening of `end_turn`: the pass count, the casting pointer, then the sweep. */
    method CountPass(skip: bool)
      requires Valid()
      modifies this
      ensures Valid() && units == old(Survivors(units))
      ensures forall u :: u in units ==> u in old(units) && Alive(u)
      ensures passes == PassesAfter(old(passes), skip) && playerCasting == Next(old(playerCasting), |players|)
      ensures players == old(players) && neutralTowers == old(neutralTowers) && outgoing == old(outgoing)
      ensures state == old(state) && playerTurn == old(playerTurn)
    {
      passes := PassesAfter(passes, skip);
      playerCasting := Next(playerCasting, |players|);
      ResolveCombat();
    }

    /** The close of `end_turn`: a snapshot, then a new-turn notice naming the casting
        player, who must exist. */
    method AnnounceTurn() returns (r: Result<()>)
      modifies this
      ensures r.Ok? <==> 0 <= playerCasting < |players|
      ensures outgoing == old(outgoing) + [Message([], Snapshot)]
                          + (if r.Ok? then [Message([], NewTurnNotice(players[playerCasting].name))] else [])
      ensures players == old(players) && units == old(units) && neutralTowers == old(neutralTowers)
      ensures state == old(state) && playerTurn == old(playerTurn) && playerCasting == old(playerCasting)
      ensures passes == old(passes)
    {
      QueueMessage(Snapshot, -1);
      if !(0 <= playerCasting < |players|) {
        return Fail("casting player out of range");
      }
      QueueMessage(NewTurnNotice(players[playerCasting].name), -1);
      r := Ok(());
    }

    /** The board part of `setup_game`: the game starts on a fresh 16 by 16 board built
        row by row, every hex a tile of the terrain `SetupType` picks, and every tower hex
        becomes a neutral tower. A terrain the registry lacks fails the tile's parse. */
    method SetupBoard(terrains: map<string, Terrain>, towerRoll: Loc -> nat, rockRoll: Loc -> nat, tileRoll: Loc -> nat)
      returns (r: Result<()>, ghost placed: set<Loc>)
      modifies this, board
      ensures board.started && board.width == SetupSize && board.height == SetupSize
      ensures r.Ok? <==> SetupParses(terrains, towerRoll, rockRoll, tileRoll)
      ensures r.Ok? ==> board.Valid() && neutralTowers == old(neutralTowers) + placed
      ensures r.Ok? ==> SetupPrefix(board.tiles, placed, SetupSize * SetupSize,
                                    SetupTiles(terrains, towerRoll, rockRoll, tileRoll), SetupTowers(towerRoll, rockRoll))
      ensures players == old(players) && units == old(units) && outgoing == old(outgoing)
      ensures state == old(state) && playerTurn == old(playerTurn) && playerCasting == old(playerCasting)
      ensures passes == old(passes)
    {
      var built, towers := BuildSetupTiles(terrains, towerRoll, rockRoll, tileRoll);
      placed := towers;
      r := InstallBoard(built, towers);
    }

    /** The end of the board setup: the board starts at 16 by 16 and the towers become
        neutral; the built tiles are installed when the build succeeded. */
    method InstallBoard(built: Result<seq<Tile>>, towers: set<Loc>) returns (r: Result<()>)
      modifies this, board
      ensures board.started && board.width == SetupSize && board.height == SetupSize
      ensures r.Ok? <==> built.Ok?
      ensures neutralTowers == old(neutralTowers) + towers
      ensures r.Ok? ==> board.tiles == built.value
      ensures players == old(players) && units == old(units) && outgoing == old(outgoing)
      ensures state == old(state) && playerTurn == old(playerTurn) && playerCasting == old(playerCasting)
      ensures passes == old(passes)
    {
      board.started := true;
      board.width := SetupSize;
      board.height := SetupSize;
      neutralTowers := neutralTowers + towers;
      if built.Fail? {
        return Fail(built.reason);
      }
      board.tiles := built.value;
      r := Ok(());
    }

    /** `setup_game`: the board, then the two wizards (side 0 at (2,8), side 1 at (12,8))
        built from the `wizard` prototype, then the castles of the first two players at
        (1,14) and (13,14). Tower owners are not reassigned: `assign_tower_owners` does
        nothing. */
    method SetupGame(terrains: map<string, Terrain>, protos: map<string, Units.Unit>, keys: Units.KeyCounter,
                     towerRoll: Loc -> nat, rockRoll: Loc -> nat, tileRoll: Loc -> nat)
      returns (r: Result<()>, ghost placed: set<Loc>, ghost wizards: seq<Units.Unit>)
      requires Valid()
      modifies this, board, keys
      ensures Valid()
      ensures board.started && board.width == SetupSize && board.height == SetupSize
      ensures r.Ok? <==> SetupParses(terrains, towerRoll, rockRoll, tileRoll) && "wizard" in protos
      ensures r.Ok? ==> board.Valid() && neutralTowers == old(neutralTowers) + placed
      ensures r.Ok? ==> SetupPrefix(board.tiles, placed, SetupSize * SetupSize,
                                    SetupTiles(terrains, towerRoll, rockRoll, tileRoll), SetupTowers(towerRoll, rockRoll))
      ensures r.Ok? ==> |wizards| == 2 && units == old(units) + wizards
      ensures r.Ok? ==> wizards[0].side == 0 && wizards[0].loc == Loc(2, 8) && wizards[0].kind == protos["wizard"].kind
      ensures r.Ok? ==> wizards[1].side == 1 && wizards[1].loc == Loc(12, 8) && wizards[1].kind == protos["wizard"].kind
      ensures r.Ok? ==> |players| == |old(players)| && forall i :: 0 <= i < |players| ==>
                players[i] == old(players)[i].(castle := if i == 0 then Some(Loc(1, 14))
                                                         else if i == 1 then Some(Loc(13, 14))
                                                         else old(players)[i].castle)
      ensures outgoing == old(outgoing) && state == old(state)
      ensures playerTurn == old(playerTurn) && playerCasting == old(playerCasting) && passes == old(passes)
    {
      wizards := [];
      r, placed := SetupBoard(terrains, towerRoll, rockRoll, tileRoll);
      if r.Fail? {
        return r, placed, wizards;
      }
      if "wizard" !in protos {
        return Fail("unknown unit prototype"), placed, wizards;
      }
      wizards := PlaceWizards(protos["wizard"], keys);
      PlaceCastles();
    }

    /** The wizards of `setup_game`: side 0 at (2,8), side 1 at (12,8). */
    method PlaceWizards(proto: Units.Unit, keys: Units.KeyCounter) returns (wizards: seq<Units.Unit>)
      requires Valid()
      modifies this`units, keys
      ensures Valid()
      ensures |wizards| == 2 && units == old(units) + wizards
      ensures wizards[0].side == 0 && wizards[0].loc == Loc(2, 8) && wizards[0].kind == proto.kind
      ensures wizards[1].side == 1 && wizards[1].loc == Loc(12, 8) && wizards[1].kind == proto.kind
    {
      var w0 := new Units.Unit.FromPrototype(proto, 0, Loc(2, 8), keys);
      var w1 := new Units.Unit.FromPrototype(proto, 1, Loc(12, 8), keys);
      wizards := [w0, w1];
      units := units + [w0, w1];
    }

    /** The castles of `setup_game`: (1,14) for the first player, (13,14) for the second. */
    method PlaceCastles()
      modifies this`players
      ensures |players| == |old(players)| && forall i :: 0 <= i < |players| ==>
                players[i] == old(players)[i].(castle := if i == 0 then Some(Loc(1, 14))
                                                         else if i == 1 then Some(Loc(13, 14))
                                                         else old(players)[i].castle)
    {
      if |players| > 0 {
        players := players[0 := players[0].(castle := Some(Loc(1, 14)))];
      }
      if |players| > 1 {
        players := players[1 := players[1].(castle := Some(Loc(13, 14)))];
      }
    }

    /** `setup`: sets the game up, queues a snapshot, then, when there is a first player,
        a new-turn notice naming it; the game is then playing with that player on turn
        and casting. With no players the count assertion fails. */
    method HandleSetup(terrains: map<string, Terrain>, protos: map<string, Units.Unit>, keys: Units.KeyCounter,
                       towerRoll: Loc -> nat, rockRoll: Loc -> nat, tileRoll: Loc -> nat)
      returns (r: Result<()>, ghost placed: set<Loc>, ghost wizards: seq<Units.Unit>)
      requires Valid()
      modifies this, board, keys
      ensures Valid()
      ensures r.Ok? <==> SetupParses(terrains, towerRoll, rockRoll, tileRoll) && "wizard" in protos && |old(players)| >= 1
      ensures r.Ok? ==> board.Valid() && board.started && board.width == SetupSize && board.height == SetupSize
      ensures r.Ok? ==> neutralTowers == old(neutralTowers) + placed
                        && SetupPrefix(board.tiles, placed, SetupSize * SetupSize,
                                       SetupTiles(terrains, towerRoll, rockRoll, tileRoll), SetupTowers(towerRoll, rockRoll))
      ensures r.Ok? ==> |wizards| == 2 && units == old(units) + wizards
      ensures r.Ok? ==> wizards[0].side == 0 && wizards[0].loc == Loc(2, 8) && wizards[0].kind == protos["wizard"].kind
      ensures r.Ok? ==> wizards[1].side == 1 && wizards[1].loc == Loc(12, 8) && wizards[1].kind == protos["wizard"].kind
      ensures r.Ok? ==> |players| == |old(players)| && forall i :: 0 <= i < |players| ==>
                players[i] == old(players)[i].(castle := if i == 0 then Some(Loc(1, 14))
                                                         else if i == 1 then Some(Loc(13, 14))
                                                         else old(players)[i].castle)
      ensures r.Ok? ==> outgoing == old(outgoing) + [Message([], Snapshot), Message([], NewTurnNotice(old(players)[0].name))]
      ensures r.Ok? ==> state == PlayingState && playerTurn == 0 && playerCasting == 0
    {
      r, placed, wizards := SetupGame(terrains, protos, keys, towerRoll, rockRoll, tileRoll);
      if r.Fail? {
        return r, placed, wizards;
      }
      r := StartPlaying();
    }

    /** The end of `setup`: the snapshot, the first player's new-turn notice, and play
        begins with that player on turn and casting. */
    method StartPlaying() returns (r: Result<()>)
      modifies this
      ensures r.Ok? <==> |players| >= 1
      ensures players == old(players) && units == old(units) && neutralTowers == old(neutralTowers)
      ensures r.Ok? ==> outgoing == old(outgoing) + [Message([], Snapshot), Message([], NewTurnNotice(players[0].name))]
      ensures r.Ok? ==> state == PlayingState && playerTurn == 0 && playerCasting == 0
    {
      QueueMessage(Snapshot, -1);
      if |players| < 1 {
        return Fail("ASSERT_GE(players.size(), 1)");
      }
      QueueMessage(NewTurnNotice(players[0].name), -1);
      state := PlayingState;
      playerCasting := 0;
      playerTurn := 0;
      r := Ok(());
    }
  }

  /** Once a prefix of the land children fails, the whole list fails. */
  lemma {:induction false} FailFrom(tiles: seq<Tile>, started: bool, width: int, height: int, lands: seq<LandChild>,
                                    terrains: map<string, Terrain>, roll: Loc -> nat, n: nat)
    requires |tiles| == width * height && n <= |lands|
    requires LandsOutcome(tiles, started, width, height, lands[..n], terrains, roll).Fail?
    ensures LandsOutcome(tiles, started, width, height, lands, terrains, roll).Fail?
    decreases |lands| - n
  {
    if n < |lands| {
      assert lands[..n + 1][..n] == lands[..n];
      FailFrom(tiles, started, width, height, lands, terrains, roll, n + 1);
    } else {
      assert lands[..n] == lands;
    }
  }

  /** The scan `resolve_combat` makes: a unit whose damage reaches its life is dropped. */
  method Sweep(us: seq<Units.Unit>) returns (kept: seq<Units.Unit>)
    ensures kept == Survivors(us)
    ensures forall u :: u in kept <==> u in us && Alive(u)
    ensures Distinct(us) ==> Distinct(kept)
    ensures (forall u :: u in us ==> Alive(u)) ==> kept == us
  {
    kept := [];
    var n := 0;
    while n != |us|
      invariant 0 <= n <= |us|
      invariant kept == Survivors(us[..n])
    {
      assert us[..n + 1][..n] == us[..n];
      var life := us[n].Stat(Units.Life);
      if us[n].damageTaken < life {
        kept := kept + [us[n]];
      }
      n := n + 1;
    }
    assert us[..n] == us;
    SurvivorsProperties(us);
    SurvivorsAllAlive(us);
  }

  /** Every unit starts a new turn. */
  method NewTurnAll(us: seq<Units.Unit>)
    requires Distinct(us)
    modifies set u | u in us
    ensures forall j :: 0 <= j < |us| ==>
              !us[j].hasMoved && us[j].path == [] && us[j].mods == Units.Surviving(old(us[j].mods), Units.EndOfTurn)
    ensures forall j :: 0 <= j < |us| ==>
              us[j].loc == old(us[j].loc) && us[j].lifeBase == old(us[j].lifeBase) && us[j].damageTaken == old(us[j].damageTaken)
  {
    var n := 0;
    while n != |us|
      invariant 0 <= n <= |us|
      invariant forall j :: 0 <= j < n ==>
                  !us[j].hasMoved && us[j].path == [] && us[j].mods == Units.Surviving(old(us[j].mods), Units.EndOfTurn)
      invariant forall j :: n <= j < |us| ==> us[j].mods == old(us[j].mods)
      invariant forall j :: 0 <= j < |us| ==>
                  us[j].loc == old(us[j].loc) && us[j].lifeBase == old(us[j].lifeBase) && us[j].damageTaken == old(us[j].damageTaken)
    {
      us[n].NewTurn();
      n := n + 1;
    }
  }

  /** The position of the first unit standing at `l`, found by a scan. */
  method FindUnitAt(us: seq<Units.Unit>, l: Loc, ghost locs: seq<Loc>) returns (r: Option<nat>)
    requires |locs| == |us| && forall i :: 0 <= i < |us| ==> us[i].loc == locs[i]
    ensures r == FirstAt(locs, l)
  {
    var k := 0;
    while k != |us|
      invariant 0 <= k <= |us|
      invariant forall i :: 0 <= i < k ==> locs[i] != l
    {
      if us[k].loc == l {
        FirstAtUnique(locs, l, k);
        return Some(k);
      }
      k := k + 1;
    }
    return None;
  }

  /** Each target adds the modification once to the first unit standing on it. */
  method ApplyTargets(us: seq<Units.Unit>, m: Units.Modification, targets: seq<Loc>, ghost locs: seq<Loc>)
    requires Distinct(us) && locs == LocsOf(us)
    modifies us
    ensures forall j :: 0 <= j < |us| ==> us[j].mods == old(us[j].mods) + Repeat(m, Hits(locs, targets, j))
    ensures forall j :: 0 <= j < |us| ==>
              us[j].loc == old(us[j].loc) && us[j].hasMoved == old(us[j].hasMoved)
              && us[j].lifeBase == old(us[j].lifeBase) && us[j].damageTaken == old(us[j].damageTaken)
  {
    var n := 0;
    while n != |targets|
      invariant 0 <= n <= |targets|
      invariant forall j :: 0 <= j < |us| ==> us[j].mods == old(us[j].mods) + Repeat(m, Hits(locs, targets[..n], j))
      invariant forall j :: 0 <= j < |us| ==>
                  us[j].loc == old(us[j].loc) && us[j].hasMoved == old(us[j].hasMoved)
                  && us[j].lifeBase == old(us[j].lifeBase) && us[j].damageTaken == old(us[j].damageTaken)
    {
      ApplyTarget(us, m, targets[n], locs);
      forall j | 0 <= j < |us|
        ensures us[j].mods == old(us[j].mods) + Repeat(m, Hits(locs, targets[..n + 1], j))
      {
        TargetStep(old(us[j].mods), m, locs, targets, n, j);
      }
      n := n + 1;
    }
    assert targets[..n] == targets;
  }

  /** One target: the first unit standing on it, if any, receives the modification. */
  method ApplyTarget(us: seq<Units.Unit>, m: Units.Modification, t: Loc, ghost locs: seq<Loc>)
    requires Distinct(us) && |locs| == |us| && forall i :: 0 <= i < |us| ==> us[i].loc == locs[i]
    modifies us
    ensures forall j :: 0 <= j < |us| ==>
              us[j].mods == old(us[j].mods) + (if FirstAt(locs, t) == Some(j) then [m] else [])
    ensures forall j :: 0 <= j < |us| ==>
              us[j].loc == old(us[j].loc) && us[j].hasMoved == old(us[j].hasMoved)
              && us[j].lifeBase == old(us[j].lifeBase) && us[j].damageTaken == old(us[j].damageTaken)
  {
    var i := FindUnitAt(us, t, locs);
    if i.Some? {
      us[i.value].AddModification(m);
    }
  }

  /** One more target adds one more copy exactly to the unit it hits. */
  lemma TargetStep(mods: seq<Units.Modification>, m: Units.Modification, locs: seq<Loc>, targets: seq<Loc>, n: nat, j: nat)
    requires n < |targets|
    ensures mods + Repeat(m, Hits(locs, targets[..n], j)) + (if FirstAt(locs, targets[n]) == Some(j) then [m] else [])
            == mods + Repeat(m, Hits(locs, targets[..n + 1], j))
  {
    assert targets[..n + 1][..n] == targets[..n];
    var h := Hits(locs, targets[..n], j);
    if FirstAt(locs, targets[n]) == Some(j) {
      assert Repeat(m, h + 1) == Repeat(m, h) + [m];
    }
  }
}
