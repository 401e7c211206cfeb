/** Board tiles (src/tile.cpp): a location, a terrain and a productivity, parsed from
    "terrain [productivity]" text, and the location-seeded choice of texture area. */
module Tiles {
  import opened Wrappers
  import Text
  import opened HexGeometry
  import opened Terrains

  /** `tile`. The terrain is null only for a default-constructed tile or after
      `set_terrain` with an unknown id. */
  datatype Tile = Tile(loc: Loc, terrain: Option<Terrain>, productivity: int)

  /** `tile(x, y, data)`: the first space-separated token must name a registered terrain;
      a second token is the productivity (read with `atoi`), otherwise the terrain rolls
      one (`roll` stands for `rand()`). `terrains` is the registry's content. */
  function NewTile(x: int, y: int, data: string, terrains: map<string, Terrain>, roll: nat): (r: Result<Tile>)
    ensures var v := Text.Split(data, ' ');
      r.Ok? <==> |v| >= 1 && v[0] in terrains
    ensures r.Ok? ==> r.value.loc == Loc(x, y) && r.value.terrain == Some(terrains[Text.Split(data, ' ')[0]])
    ensures r.Ok? && |Text.Split(data, ' ')| > 1 ==> r.value.productivity == Text.Atoi(Text.Split(data, ' ')[1])
    ensures r.Ok? && |Text.Split(data, ' ')| == 1
            ==> r.value.productivity == ProductionValue(terrains[Text.Split(data, ' ')[0]], roll)
  {
    var v := Text.Split(data, ' ');
    if |v| < 1 then Fail("ASSERT_GE(v.size(), 1)")
    else if v[0] !in terrains then Fail("Could not find terrain")
    else
      var t := terrains[v[0]];
      Ok(Tile(Loc(x, y), Some(t), if |v| > 1 then Text.Atoi(v[1]) else ProductionValue(t, roll)))
  }

  /** `set_terrain(id)`: the terrain becomes the registered one with that id (null when
      there is none); location and productivity stay. */
  function SetTerrain(t: Tile, id: string, terrains: map<string, Terrain>): (r: Tile)
    ensures r.loc == t.loc && r.productivity == t.productivity
    ensures r.terrain.Some? <==> id in terrains
    ensures r.terrain.Some? ==> r.terrain.value == terrains[id]
  {
    t.(terrain := if id in terrains then Some(terrains[id]) else None)
  }

  /** `prandom(loc)` followed by `% size`: the hash is computed in unsigned 32-bit
      arithmetic, read back as a signed `int`, and that `int` is converted to the unsigned
      64-bit `size_t` of the vector size before the remainder is taken. */
  function PrandomIndex(l: Loc, size: nat): (i: nat)
    requires size > 0
    ensures i < size
  {
    var a: bv32 := ((l.x + 92872873) % 0x1_0000_0000) as bv32 ^ 918273;
    var b: bv32 := ((l.y + 1672517) % 0x1_0000_0000) as bv32 ^ 128123;
    var u := (a * b + a + b) as int;
    var signed := if u < 0x8000_0000 then u else u - 0x1_0000_0000;
    var asSize := signed % 0x1_0000_0000_0000_0000;
    asSize % size
  }

  /** The texture-area choice shared by `texture_area` and `overlay_texture_area`: the
      zero rectangle when there are no areas, otherwise the area the location hashes to. */
  function SelectArea(l: Loc, areas: seq<Rect>): (r: Rect)
    ensures areas == [] ==> r == Rect(0, 0, 0, 0)
    ensures areas != [] ==> r in areas && r == areas[PrandomIndex(l, |areas|)]
  {
    if areas == [] then Rect(0, 0, 0, 0) else areas[PrandomIndex(l, |areas|)]
  }

  /** `texture_area`. */
  function TextureArea(t: Tile): Rect
    requires t.terrain.Some?
  {
    SelectArea(t.loc, t.terrain.value.textureAreas)
  }

  /** `overlay_texture_area`. */
  function OverlayTextureArea(t: Tile): Rect
    requires t.terrain.Some?
  {
    SelectArea(t.loc, t.terrain.value.overlayTextureAreas)
  }

  /** `write(str)`: appends the terrain id and nothing else. */
  function Write(t: Tile, str: string): string
    requires t.terrain.Some?
  {
    str + t.terrain.value.id
  }

  /** Writing a tile and parsing the text back gives the same location and terrain, but
      the productivity is rolled again: it is not part of the written form. */
  lemma WriteThenParse(t: Tile, terrains: map<string, Terrain>, roll: nat)
    requires t.terrain.Some?
    requires var id := t.terrain.value.id;
      id != [] && Text.Trimmed(id) && ' ' !in id && id in terrains && terrains[id] == t.terrain.value
    ensures NewTile(t.loc.x, t.loc.y, Write(t, ""), terrains, roll)
            == Ok(t.(productivity := ProductionValue(t.terrain.value, roll)))
  {
    var id := t.terrain.value.id;
    Text.SplitJoin([id], ' ');
    assert Text.Join([id], ' ') == id;
    assert "" + id == id;
  }
}
