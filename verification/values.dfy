/** The formula engine's dynamically typed value (the C++ `variant`, whose
    implementation is not part of this model), reduced to the kinds the
    modelled code inspects. */
module Values {
  datatype Value =
    | Null
    | Int(i: int)
    | Str(s: string)
    | List(items: seq<Value>)
    | Map(entries: map<string, Value>)
    | Location(x: int, y: int)   // a `location_object`
    | TileRef(tx: int, ty: int, terrain: string)  // a `tile_object`: a tile's location and terrain id
    | ObjRef(id: nat)            // any other callable object: a unit, a tile, a command, a storage

  /** `as_int()`: the integer, 0 for null, and 0 for every other kind. */
  function AsInt(v: Value): int
  {
    if v.Int? then v.i else 0
  }

  /** `as_bool()`: false for null, zero and empty containers; true otherwise. */
  predicate AsBool(v: Value)
  {
    match v
    case Null => false
    case Int(i) => i != 0
    case Str(s) => s != []
    case List(items) => items != []
    case Map(entries) => entries != map[]
    case Location(_, _) => true
    case TileRef(_, _, _) => true
    case ObjRef(_) => true
  }

  /** `as_string()`: the text of a string value, empty for every other kind. */
  function AsString(v: Value): string
  {
    if v.Str? then v.s else ""
  }

  /** `v + w` on two values, modelled for integers only. */
  function Plus(v: Value, w: Value): Value
  {
    Int(AsInt(v) + AsInt(w))
  }
}
