/** Terrain types (src/terrain.cpp): the registry of terrains by id, each terrain's
    resource index and its construction-order overlay rank. */
module Terrains {
  import opened Wrappers
  import Resource
  import Text

  /** `rect`: a texture area. */
  datatype Rect = Rect(x: int, y: int, w: int, h: int)

  /** A `terrain` node. The `image_area` and `overlay_image_area` attributes are given
      already cut into rectangles. */
  datatype TerrainNode = TerrainNode(id: string, resource: string, image: string, overlayImage: string,
                                     imageAreas: seq<Rect>, overlayImageAreas: seq<Rect>, difficulty: int)

  /** A constructed terrain. `overlayOrder` is unique to each construction, so two values
      are equal exactly when they come from the same construction, as the C++ pointers are. */
  datatype Terrain = Terrain(id: string, resource: string, texture: string, overlayTexture: string,
                             textureAreas: seq<Rect>, overlayTextureAreas: seq<Rect>,
                             resourceId: int, productionDifficulty: int, overlayOrder: int)

  /** The resource index a terrain's `resource` attribute names: the index of its only
      character among the resource ids, or -1 when it is not a single resource id. */
  function ResourceIdOf(resource: string): int
  {
    if |resource| == 1 && Resource.IndexOf(resource[0]).Some? then Resource.IndexOf(resource[0]).value
    else -1
  }

  /** The constructor's resource scan: for a one-character resource, the first n whose
      resource id is that character; -1 otherwise. */
  method DeriveResourceId(resource: string) returns (id: int)
    ensures id == ResourceIdOf(resource)
  {
    id := -1;
    if |resource| == 1 {
      var n := 0;
      while n != Resource.NumResources
        invariant 0 <= n <= Resource.NumResources
        invariant forall k :: 0 <= k < n ==> Resource.ResourceStr[k] != resource[0]
      {
        if resource[0] == Resource.ResourceId(n) {
          id := n;
          break;
        }
        n := n + 1;
      }
    }
  }

  /** A one-character resource id names its own index; any other text names no resource. */
  lemma ResourceIdOfIds(n: nat, s: string)
    requires n < Resource.NumResources
    ensures ResourceIdOf([Resource.ResourceId(n)]) == n
    ensures |s| != 1 ==> ResourceIdOf(s) == -1
    ensures 0 <= ResourceIdOf(s) ==> ResourceIdOf(s) < Resource.NumResources && s == [Resource.ResourceId(ResourceIdOf(s))]
  {
    Resource.IndexOfResourceId(n);
  }

  /** `calculate_production_value`: the difficulty plus a die roll of 1 to 6; `roll`
      stands for the value `rand()` returns. */
  function ProductionValue(t: Terrain, roll: nat): (v: int)
    ensures t.productionDifficulty + 1 <= v <= t.productionDifficulty + 6
  {
    t.productionDifficulty + roll % 6 + 1
  }

  /** The terrain the constructor builds from a node when `order` is the next overlay rank. */
  function Construct(node: TerrainNode, order: int): (t: Terrain)
    ensures t.id == node.id && t.overlayOrder == order
    ensures t.resourceId == ResourceIdOf(node.resource)
    ensures t.productionDifficulty == node.difficulty
  {
    Terrain(node.id, node.resource, node.image, node.overlayImage, node.imageAreas,
            node.overlayImageAreas, ResourceIdOf(node.resource), node.difficulty, order)
  }

  /** The registry after constructing and registering `nodes` in order, starting from the
      map `m` with `start` as the next overlay rank. */
  function Registered(m: map<string, Terrain>, nodes: seq<TerrainNode>, start: int): map<string, Terrain>
  {
    if nodes == [] then m
    else
      var last := |nodes| - 1;
      Registered(m, nodes[..last], start)[nodes[last].id := Construct(nodes[last], start + last)]
  }

  /** After `init`, an id is registered exactly when it was before or some child has it. */
  lemma {:induction false} RegisteredKeys(m: map<string, Terrain>, nodes: seq<TerrainNode>, start: int, id: string)
    ensures id in Registered(m, nodes, start) <==> id in m || exists i :: 0 <= i < |nodes| && nodes[i].id == id
  {
    if nodes != [] {
      var init := nodes[..|nodes| - 1];
      RegisteredKeys(m, init, start, id);
      assert forall i :: 0 <= i < |init| ==> init[i] == nodes[i];
    }
  }

  /** The terrain under a child's id is built from the last child with that id, with
      overlay rank `start + i` for the i-th child. */
  lemma {:induction false} RegisteredLastWins(m: map<string, Terrain>, nodes: seq<TerrainNode>, start: int, i: int)
    requires 0 <= i < |nodes|
    requires forall j :: i < j < |nodes| ==> nodes[j].id != nodes[i].id
    ensures nodes[i].id in Registered(m, nodes, start)
    ensures Registered(m, nodes, start)[nodes[i].id] == Construct(nodes[i], start + i)
  {
    var last := |nodes| - 1;
    if i < last {
      var init := nodes[..last];
      assert init[i] == nodes[i];
      RegisteredLastWins(m, init, start, i);
    }
  }

  /** An id no child has keeps the terrain it had. */
  lemma {:induction false} RegisteredUntouched(m: map<string, Terrain>, nodes: seq<TerrainNode>, start: int, id: string)
    requires id in m
    requires forall i :: 0 <= i < |nodes| ==> nodes[i].id != id
    ensures id in Registered(m, nodes, start) && Registered(m, nodes, start)[id] == m[id]
  {
    if nodes != [] {
      var init := nodes[..|nodes| - 1];
      assert forall i :: 0 <= i < |init| ==> init[i] == nodes[i];
      RegisteredUntouched(m, init, start, id);
    }
  }

  /** The terrain registry: every terrain by id, and the overlay rank the next
      constructed terrain receives. */
  class Registry {
    var terrains: map<string, Terrain>
    var nextOverlayOrder: int

    constructor ()
      ensures terrains == map[] && nextOverlayOrder == 1
    {
      terrains := map[];
      nextOverlayOrder := 1;
    }

    /** The `terrain` constructor: copies the node's attributes, takes the next overlay
        rank and derives the resource index. */
    method NewTerrain(node: TerrainNode) returns (t: Terrain)
      modifies this
      ensures terrains == old(terrains)
      ensures nextOverlayOrder == old(nextOverlayOrder) + 1
      ensures t == Construct(node, old(nextOverlayOrder))
    {
      var rid := DeriveResourceId(node.resource);
      t := Terrain(node.id, node.resource, node.image, node.overlayImage, node.imageAreas,
                   node.overlayImageAreas, rid, node.difficulty, nextOverlayOrder);
      nextOverlayOrder := nextOverlayOrder + 1;
    }

    /** `terrain::init`: constructs each child in order and registers it under its id,
        replacing an earlier terrain with the same id. */
    method Init(nodes: seq<TerrainNode>)
      modifies this
      ensures nextOverlayOrder == old(nextOverlayOrder) + |nodes|
      ensures terrains == Registered(old(terrains), nodes, old(nextOverlayOrder))
    {
      var n := 0;
      while n < |nodes|
        invariant 0 <= n <= |nodes|
        invariant nextOverlayOrder == old(nextOverlayOrder) + n
        invariant terrains == Registered(old(terrains), nodes[..n], old(nextOverlayOrder))
      {
        var t := NewTerrain(nodes[n]);
        terrains := terrains[t.id := t];
        n := n + 1;
        assert nodes[..n][..n - 1] == nodes[..n - 1];
      }
      assert nodes[..n] == nodes;
    }

    /** `terrain::get`: the terrain with that id, or null. */
    function Get(key: string): (r: Option<Terrain>)
      reads this
      ensures r.None? <==> key !in terrains
      ensures r.Some? ==> r.value == terrains[key]
    {
      if key in terrains then Some(terrains[key]) else None
    }

    /** `terrain::all`: the registered ids, each once, in increasing order (the order in
        which `std::map` visits its keys). */
    method All() returns (ids: seq<string>)
      ensures forall i :: 0 <= i < |ids| ==> ids[i] in terrains
      ensures forall k :: k in terrains ==> k in ids
      ensures forall i, j :: 0 <= i < j < |ids| ==> Text.Less(ids[i], ids[j])
    {
      ids := [];
      var remaining := terrains.Keys;
      while remaining != {}
        invariant remaining <= terrains.Keys
        invariant forall k :: k in terrains ==> k in remaining || k in ids
        invariant forall i :: 0 <= i < |ids| ==> ids[i] in terrains && ids[i] !in remaining
        invariant forall i, j :: 0 <= i < j < |ids| ==> Text.Less(ids[i], ids[j])
        invariant forall i, k :: 0 <= i < |ids| && k in remaining ==> Text.Less(ids[i], k)
        decreases remaining
      {
        var m := Text.Smallest(remaining);
        ids := ids + [m];
        remaining := remaining - {m};
      }
    }
  }

}
