/** Movement types (src/movement_type.cpp): per-terrain movement cost, armour and attack
    modifiers of a class of units, and the registry of all movement types by id. */
module MovementType {
  import opened Wrappers

  /** `movement_type::Entry`. */
  datatype Entry = Entry(cost: int, armor: int, attack: int)

  /** A `terrain` child of a `move` node; absent attributes are `None`. */
  datatype TerrainNode = TerrainNode(terrain: string, cost: Option<int>, armor: Option<int>, attack: Option<int>)

  /** A `move` node: the movement type's id and its terrain children in order. */
  datatype MoveNode = MoveNode(id: string, terrains: seq<TerrainNode>)

  /** The entry used for every terrain the movement type does not list. */
  const DefaultEntry: Entry := Entry(10, 0, 0)

  datatype MoveType = MoveType(id: string, entries: map<string, Entry>)

  function GetOr(v: Option<int>, d: int): int
  {
    if v.Some? then v.value else d
  }

  /** The entry one terrain child describes: cost 10 unless given, modifiers 0 unless given. */
  function EntryOf(t: TerrainNode): (e: Entry)
    ensures t.cost.None? ==> e.cost == 10
    ensures t.cost.Some? ==> e.cost == t.cost.value
    ensures e.armor == GetOr(t.armor, 0) && e.attack == GetOr(t.attack, 0)
  {
    Entry(GetOr(t.cost, 10), GetOr(t.armor, 0), GetOr(t.attack, 0))
  }

  /** The entries the terrain children define, the later of two children for the same
      terrain winning. */
  function Entries(ts: seq<TerrainNode>): map<string, Entry>
  {
    if ts == [] then map[]
    else Entries(ts[..|ts| - 1])[ts[|ts| - 1].terrain := EntryOf(ts[|ts| - 1])]
  }

  /** A terrain has an entry exactly when some child names it, and the entry is the one
      of the last child naming it. */
  lemma {:induction false} EntriesLastWins(ts: seq<TerrainNode>, terrain: string)
    ensures terrain in Entries(ts) <==> exists i :: 0 <= i < |ts| && ts[i].terrain == terrain
    ensures forall i :: 0 <= i < |ts| && ts[i].terrain == terrain
                        && (forall j :: i < j < |ts| ==> ts[j].terrain != terrain)
                        ==> Entries(ts)[terrain] == EntryOf(ts[i])
  {
    if ts != [] {
      var init := ts[..|ts| - 1];
      EntriesLastWins(init, terrain);
      if ts[|ts| - 1].terrain != terrain {
        assert forall i :: 0 <= i < |init| ==> init[i] == ts[i];
      }
    }
  }

  /** The `movement_type` constructor: starts from no entries and, child by child, sets
      the entry of the child's terrain. */
  method Build(node: MoveNode) returns (mt: MoveType)
    ensures mt.id == node.id
    ensures mt.entries == Entries(node.terrains)
  {
    var entries := map[];
    var n := 0;
    while n < |node.terrains|
      invariant 0 <= n <= |node.terrains|
      invariant entries == Entries(node.terrains[..n])
    {
      var t := node.terrains[n];
      entries := entries[t.terrain := EntryOf(t)];
      n := n + 1;
      assert node.terrains[..n][..n - 1] == node.terrains[..n - 1];
    }
    assert node.terrains[..n] == node.terrains;
    mt := MoveType(node.id, entries);
  }

  /** `get_entry`: the terrain's own entry, else the default one. */
  function GetEntry(mt: MoveType, terrain: string): (e: Entry)
    ensures terrain !in mt.entries ==> e == DefaultEntry
    ensures terrain in mt.entries ==> e == mt.entries[terrain]
  {
    if terrain in mt.entries then mt.entries[terrain] else DefaultEntry
  }

  /** `movement_cost`. */
  function MovementCost(mt: MoveType, terrain: string): int
  {
    GetEntry(mt, terrain).cost
  }

  /** `armor_modification`. */
  function ArmorModification(mt: MoveType, terrain: string): int
  {
    GetEntry(mt, terrain).armor
  }

  /** `attack_modification`. */
  function AttackModification(mt: MoveType, terrain: string): int
  {
    GetEntry(mt, terrain).attack
  }

  /** A terrain no child lists costs 10 to enter and modifies neither armour nor attack;
      a listed terrain reads the last child's values, cost 10 when that child omits it. */
  lemma AccessorsOfBuilt(node: MoveNode, terrain: string, i: int)
    requires 0 <= i < |node.terrains| && node.terrains[i].terrain == terrain
    requires forall j :: i < j < |node.terrains| ==> node.terrains[j].terrain != terrain
    ensures var mt := MoveType(node.id, Entries(node.terrains));
      MovementCost(mt, terrain) == GetOr(node.terrains[i].cost, 10)
      && ArmorModification(mt, terrain) == GetOr(node.terrains[i].armor, 0)
      && AttackModification(mt, terrain) == GetOr(node.terrains[i].attack, 0)
  {
    EntriesLastWins(node.terrains, terrain);
  }

  /** An unlisted terrain gets the default entry: cost 10, armour 0, attack 0. */
  lemma AccessorsOfUnlisted(node: MoveNode, terrain: string)
    requires forall j :: 0 <= j < |node.terrains| ==> node.terrains[j].terrain != terrain
    ensures var mt := MoveType(node.id, Entries(node.terrains));
      MovementCost(mt, terrain) == 10 && ArmorModification(mt, terrain) == 0
      && AttackModification(mt, terrain) == 0
  {
    EntriesLastWins(node.terrains, terrain);
  }

  /** The cache after loading `nodes` in order onto `cache`: each node's type is stored
      under its id, a later node replacing an earlier one. */
  function Loaded(cache: map<string, MoveType>, nodes: seq<MoveNode>): map<string, MoveType>
  {
    if nodes == [] then cache
    else
      var last := nodes[|nodes| - 1];
      Loaded(cache, nodes[..|nodes| - 1])[last.id := MoveType(last.id, Entries(last.terrains))]
  }

  /** Whether some node carries `id`. */
  predicate Mentions(nodes: seq<MoveNode>, id: string)
  {
    exists i :: 0 <= i < |nodes| && nodes[i].id == id
  }

  /** Loading adds exactly the nodes' ids to the cache. */
  lemma {:induction false} LoadedKeys(cache: map<string, MoveType>, nodes: seq<MoveNode>, id: string)
    ensures id in Loaded(cache, nodes) <==> id in cache || Mentions(nodes, id)
  {
    if nodes != [] {
      var k := |nodes| - 1;
      var init := nodes[..k];
      LoadedKeys(cache, init, id);
      if Mentions(nodes, id) && id != nodes[k].id {
        var i :| 0 <= i < |nodes| && nodes[i].id == id;
        assert init[i].id == id;
      }
      if Mentions(init, id) {
        var i :| 0 <= i < |init| && init[i].id == id;
        assert nodes[i].id == id;
      }
    }
  }

  /** The last node carrying an id decides the type stored under it. */
  lemma {:induction false} LoadedLastWins(cache: map<string, MoveType>, nodes: seq<MoveNode>, i: nat)
    requires i < |nodes| && forall j :: i < j < |nodes| ==> nodes[j].id != nodes[i].id
    ensures nodes[i].id in Loaded(cache, nodes)
    ensures Loaded(cache, nodes)[nodes[i].id] == MoveType(nodes[i].id, Entries(nodes[i].terrains))
  {
    var k := |nodes| - 1;
    if i < k {
      var init := nodes[..k];
      assert init[i] == nodes[i];
      LoadedLastWins(cache, init, i);
    }
  }

  /** An id no node carries keeps its earlier type. */
  lemma {:induction false} LoadedKeeps(cache: map<string, MoveType>, nodes: seq<MoveNode>, id: string)
    requires id in cache && !Mentions(nodes, id)
    ensures id in Loaded(cache, nodes) && Loaded(cache, nodes)[id] == cache[id]
  {
    if nodes != [] {
      var k := |nodes| - 1;
      var init := nodes[..k];
      assert nodes[k].id != id;
      forall i | 0 <= i < |init|
        ensures init[i].id != id
      {
        assert init[i] == nodes[i];
      }
      LoadedKeeps(cache, init, id);
    }
  }

  /** The movement-type cache: every movement type read so far, by id. */
  class Registry {
    var cache: map<string, MoveType>

    constructor ()
      ensures cache == map[]
    {
      cache := map[];
    }

    /** `movement_type::init`: builds each `move` child and stores it under its id,
        replacing an earlier type with the same id. */
    method Init(nodes: seq<MoveNode>)
      modifies this
      ensures cache == Loaded(old(cache), nodes)
    {
      var n := 0;
      while n < |nodes|
        invariant 0 <= n <= |nodes|
        invariant cache == Loaded(old(cache), nodes[..n])
      {
        var mt := Build(nodes[n]);
        assert nodes[..n + 1][..n] == nodes[..n];
        cache := cache[nodes[n].id := mt];
        n := n + 1;
      }
      assert nodes[..n] == nodes;
    }

    /** `movement_type::get`: the empty id stands for "default"; an id never loaded
        fails the assertion. */
    function Get(id: string): (r: Result<MoveType>)
      reads this
      ensures r.Ok? <==> (if id == "" then "default" else id) in cache
      ensures r.Ok? ==> r.value == cache[if id == "" then "default" else id]
    {
      var key := if id == "" then "default" else id;
      if key in cache then Ok(cache[key]) else Fail("Unrecognized movement type")
    }
  }
}
