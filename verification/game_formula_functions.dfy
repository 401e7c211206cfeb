/** The game's formula functions (src/game_formula_functions.cpp): the `set` and `add`
    functions and the commands they defer, the debug functions, `loc` and `tower`, the
    unit-modification commands, the game symbol table that puts these in front of the
    user-defined ones, and the `location_object` and `tile_object` callables. */
module GameFormulaFunctions {
  import opened Wrappers
  import opened Values
  import Text
  import Wml
  import Units
  import FormulaSymbols
  import VariableStorage
  import Games
  import HexGeometry

  // ---------------------------------------------------------------- commands

  datatype MutationKind = SetKind | AddKind

  /** The command objects a game formula evaluates to; they change nothing until they
      are executed. */
  datatype Command =
    | DebugCommand(text: string)
    | Mutation(kind: MutationKind, target: Value, attr: string, val: Value)
    | ModifyUnit(target: Value, mod: Units.Modification)

  /** An argument expression of `set` or `add` as those functions look at it: a string
      literal, a bare identifier, a member access `target.member` (its object already
      evaluated, with the value it has), or any other expression with its value. */
  datatype Arg =
    | StringLiteral(s: string)
    | Identifier(name: string)
    | MemberAccess(target: Value, member: string, value: Value)
    | OtherExpr(value: Value)

  /** An argument's value; an identifier is looked up in the variables, null when absent. */
  function Eval(a: Arg, env: map<string, Value>): Value
  {
    match a
    case StringLiteral(s) => Str(s)
    case Identifier(name) => if name in env then env[name] else Null
    case MemberAccess(_, _, value) => value
    case OtherExpr(value) => value
  }

  /** The key the constructor of `set_function` / `add_function` fixes: with two
      arguments, a string literal's text or an identifier's name; otherwise empty. */
  function ConstructorKey(args: seq<Arg>): string
  {
    if |args| != 2 then ""
    else match args[0]
      case StringLiteral(s) => s
      case Identifier(name) => name
      case _ => ""
  }

  /** `set_function::execute` and `add_function::execute` (they differ only in the
      command they build). The count is 2 or 3: the constructor's arity check throws
      otherwise. A fixed key gives a command on a null target; two arguments whose first
      is a member access give a command on that object and member; otherwise the target
      is the first of three arguments (null with two) and the next two arguments give the
      key, as a string, and the value. */
  function MakeMutation(kind: MutationKind, args: seq<Arg>, env: map<string, Value>): (r: Command)
    requires 2 <= |args| <= 3
    ensures r.Mutation? && r.kind == kind && r.val == Eval(args[|args| - 1], env)
    ensures |args| == 3 ==> r == Mutation(kind, Eval(args[0], env), AsString(Eval(args[1], env)), Eval(args[2], env))
  {
    var key := ConstructorKey(args);
    if key != "" then Mutation(kind, Null, key, Eval(args[1], env))
    else if |args| == 2 && args[0].MemberAccess? then Mutation(kind, args[0].target, args[0].member, Eval(args[1], env))
    else
      var target := if |args| == 3 then Eval(args[0], env) else Null;
      var b := if |args| == 2 then 0 else 1;
      Mutation(kind, target, AsString(Eval(args[b], env)), Eval(args[b + 1], env))
  }

  /** With two arguments whose first is a string literal or an identifier, the command
      acts on a null target under that text or name; an empty literal falls through to
      the general case and gives the same command. */
  lemma {:induction false} KeyedMutation(kind: MutationKind, first: Arg, second: Arg, env: map<string, Value>)
    requires first.StringLiteral? || first.Identifier?
    requires first.Identifier? ==> first.name != ""
    ensures var key := if first.StringLiteral? then first.s else first.name;
      MakeMutation(kind, [first, second], env) == Mutation(kind, Null, key, Eval(second, env))
  {
    var args := [first, second];
    assert args[0] == first && args[1] == second;
    if first.StringLiteral? && first.s == "" {
      assert ConstructorKey(args) == "";
      assert AsString(Eval(first, env)) == "";
    }
  }

  /** Two arguments whose first is a member access act on that object and member. */
  lemma MemberMutation(kind: MutationKind, first: Arg, second: Arg, env: map<string, Value>)
    requires first.MemberAccess?
    ensures MakeMutation(kind, [first, second], env) == Mutation(kind, first.target, first.member, Eval(second, env))
  {
    assert [first, second][0] == first;
  }

  /** `set_command::execute` and `add_command::execute` on the object the target refers
      to (`store`, null when the target is not an object: `mutable_callable()` then has
      nothing to mutate). A set makes the attribute equal the value; an add makes it its
      old value plus the value; nothing else changes. */
  method ExecuteMutation(c: Command, store: VariableStorage.Storage?) returns (r: Result<()>)
    requires c.Mutation?
    requires store != null ==> c.target.ObjRef? && store.Valid()
    modifies if store != null then {store} else {}
    ensures r.Ok? <==> store != null
    ensures store != null ==> store.Valid()
    ensures store != null ==>
              store.Contents() == old(store.Contents())[c.attr := MutatedValue(c, old(store.GetValue(c.attr)))]
  {
    if store == null {
      return Fail("not a mutable callable");
    }
    var current := store.GetValue(c.attr);
    store.SetValue(c.attr, MutatedValue(c, current));
    r := Ok(());
  }

  /** The value a mutation leaves in the attribute, given what it held before. */
  function MutatedValue(c: Command, current: Value): (v: Value)
    requires c.Mutation?
    ensures c.kind == SetKind ==> v == c.val
    ensures c.kind == AddKind ==> v.Int? && v.i == AsInt(current) + AsInt(c.val)
  {
    if c.kind == SetKind then c.val else Plus(current, c.val)
  }

  /** An add after a set leaves the sum of the two values; a second set overrides the
      first; a set is unaffected by what the attribute held. */
  lemma MutationsCompose(target: Value, attr: string, a: Value, b: Value, before: Value)
    ensures var afterSet := MutatedValue(Mutation(SetKind, target, attr, a), before);
      MutatedValue(Mutation(AddKind, target, attr, b), afterSet) == Int(AsInt(a) + AsInt(b))
      && MutatedValue(Mutation(SetKind, target, attr, b), afterSet) == b
  {
  }

  // ---------------------------------------------------------------- debug

  /** The debug text of a run of values, each shown with `to_debug_string` (`show`). */
  function Shown(vs: seq<Value>, show: Value -> string): string
  {
    if vs == [] then "" else Shown(vs[..|vs| - 1], show) + show(vs[|vs| - 1])
  }

  /** `debug(...)`: a debug command carrying every argument's debug text, in order. */
  method Debug(args: seq<Value>, show: Value -> string) returns (c: Command)
    ensures c == DebugCommand(Shown(args, show))
    ensures |args| == 1 ==> c.text == show(args[0])
  {
    var text := "";
    var n := 0;
    while n != |args|
      invariant 0 <= n <= |args|
      invariant text == Shown(args[..n], show)
    {
      assert args[..n + 1][..n] == args[..n];
      text := text + show(args[n]);
      n := n + 1;
    }
    assert args[..n] == args;
    if |args| == 1 {
      assert Shown(args[..0], show) == "";
    }
    c := DebugCommand(text);
  }

  /** `debug_fn(expr, ...)`: the remaining arguments only go to the error stream, and the
      call evaluates to its first argument (there are at least two: fewer fail the arity
      check). */
  function DebugFn(args: seq<Value>): (r: Value)
    requires |args| >= 2
    ensures r == args[0]
  {
    args[0]
  }

  /** The text a debug command queues when a game is running: every double quote
      replaced by a single quote. */
  function Requoted(s: string): (q: string)
  {
    seq(|s|, i requires 0 <= i < |s| => if s[i] == '"' then '\'' else s[i])
  }

  /** The in-place replacement loop of `debug_command::execute`. */
  method ReplaceQuotes(s: string) returns (q: string)
    ensures q == Requoted(s)
  {
    q := s;
    var n := 0;
    while n != |q|
      invariant 0 <= n <= |q| == |s|
      invariant forall i :: 0 <= i < n ==> q[i] == (if s[i] == '"' then '\'' else s[i])
      invariant forall i :: n <= i < |q| ==> q[i] == s[i]
    {
      if q[n] == '"' {
        q := q[n := '\''];
      }
      n := n + 1;
    }
  }

  /** The replaced text has the length of the original, holds no double quote, so it
      cannot close the attribute it is written into, and a text without double quotes
      is queued unchanged. */
  lemma QuotesReplaced(s: string)
    ensures |Requoted(s)| == |s| && '"' !in Requoted(s)
    ensures '"' !in s ==> Requoted(s) == s
  {
    var q := Requoted(s);
    forall i | 0 <= i < |q|
      ensures q[i] != '"'
    {
    }
  }

  /** `debug_command::execute`: with a game running, the message queued is a
      `debug_message` element whose `msg` attribute is the quote-replaced text; without
      a game nothing is queued. */
  method ExecuteDebug(c: Command, gameRunning: bool) returns (queued: Option<string>)
    requires c.DebugCommand?
    ensures queued.Some? <==> gameRunning
    ensures queued.Some? ==> queued.value == "<debug_message msg=\"" + Requoted(c.text) + "\"/>"
  {
    if !gameRunning {
      return None;
    }
    var q := ReplaceQuotes(c.text);
    queued := Some("<debug_message msg=\"" + q + "\"/>");
  }

  // ---------------------------------------------------------------- loc and tower

  /** `loc(x, y)`: a location object from the two arguments read as integers. */
  function LocFunction(x: Value, y: Value): (r: Value)
    ensures r.Location?
    ensures GetValue(r, "x") == Int(AsInt(x)) && GetValue(r, "y") == Int(AsInt(y))
  {
    Location(AsInt(x), AsInt(y))
  }

  /** `tower(v)`: -1 when the argument is not a location object, otherwise the owner
      `tower_owner` reports for that location. */
  function Tower(v: Value, players: seq<Games.Player>): (r: int)
    ensures -1 <= r < |players|
    ensures !v.Location? ==> r == -1
    ensures v.Location? && r >= 0 ==> HexGeometry.Loc(v.x, v.y) in players[r].towers
    ensures v.Location? && r == -1 ==> forall j :: 0 <= j < |players| ==> HexGeometry.Loc(v.x, v.y) !in players[j].towers
  {
    if v.Location? then Games.OwnerFrom(players, HexGeometry.Loc(v.x, v.y), 0) else -1
  }

  /** With every tower held by at most one player, `tower` names a player exactly when
      that player holds the tower. */
  lemma TowerNamesHolder(v: Value, players: seq<Games.Player>, neutral: set<HexGeometry.Loc>, i: int)
    requires Games.UniqueOwners(players, neutral) && v.Location? && 0 <= i < |players|
    ensures Tower(v, players) == i <==> HexGeometry.Loc(v.x, v.y) in players[i].towers
  {
  }

  // ---------------------------------------------------------------- unit modifications

  /** The attribute naming an expiry flag. */
  function FlagName(e: Units.Expiry): string
  {
    match e
    case EndOfTurn => "expires_end_of_turn"
    case StateChange => "expires_on_state_change"
  }

  /** The `mod` node `unit_modification_command` builds: the attribute set to the
      formatted value, then the expiry flag set to "yes". */
  function ModNode(attr: string, value: int, e: Units.Expiry): Wml.Attrs
  {
    map[attr := Text.IntToString(value)][FlagName(e) := "yes"]
  }

  /** `modify_unit_until_end_of_turn` and `modify_unit_until_game_state_change` (exactly
      three arguments): a command on the first argument whose modification is read from
      that node. */
  function ModifyUnitFunction(args: seq<Value>, e: Units.Expiry): (c: Command)
    requires |args| == 3
    ensures c.ModifyUnit? && c.target == args[0]
    ensures e == Units.EndOfTurn ==> c.mod.expiresEndOfTurn
    ensures e == Units.StateChange ==> c.mod.expiresOnStateChange
  {
    ModifyUnit(args[0], Units.ReadMod(ModNode(AsString(args[1]), AsInt(args[2]), e)))
  }

  /** For an attribute that is not an expiry flag, the modification carries the value
      in that attribute, zero in the others, and only the chosen expiry flag. */
  lemma ModNodeReadsBack(attr: string, value: int, e: Units.Expiry)
    requires attr != "expires_end_of_turn" && attr != "expires_on_state_change"
    ensures Units.ReadMod(ModNode(attr, value, e)) ==
              Units.Modification(if attr == "id" then value else 0, if attr == "life" then value else 0,
                                 if attr == "armor" then value else 0, if attr == "move" then value else 0,
                                 e == Units.EndOfTurn, e == Units.StateChange)
  {
    var a := ModNode(attr, value, e);
    assert attr in a && a[attr] == Text.IntToString(value);
    Wml.GetIntAt(a, attr, value, 0);
    assert FlagName(e) in a && a[FlagName(e)] == "yes";
  }

  /** `unit_modification_command::execute`: the modification is added to the target
      unit, so each of its effective stats moves by the modification's delta. */
  method ExecuteModifyUnit(c: Command, u: Units.Unit)
    requires c.ModifyUnit?
    modifies u
    ensures u.mods == old(u.mods) + [c.mod]
    ensures forall s :: u.Effective(s) == old(u.Effective(s)) + Units.Delta(c.mod, s)
  {
    u.AddModification(c.mod);
  }

  /** A unit modified until the end of the turn on "life" by `value` has its effective
      life raised by `value` and sheds the modification at the next turn. */
  lemma ModifyLifeUntilEndOfTurn(value: int)
    ensures var m := Units.ReadMod(ModNode("life", value, Units.EndOfTurn));
      Units.Delta(m, Units.Life) == value && Units.Expires(m, Units.EndOfTurn)
      && Units.Delta(m, Units.Armor) == 0 && Units.Delta(m, Units.Move) == 0
  {
    ModNodeReadsBack("life", value, Units.EndOfTurn);
  }

  // ---------------------------------------------------------------- symbol table

  /** The functions the FUNCTION_DEF blocks register, with their argument bounds (a
      negative bound is no bound). */
  const Registered: map<string, (int, int)> := map[
    "debug" := (1, -1), "debug_fn" := (2, -1), "loc" := (2, 2), "tower" := (1, 1),
    "get_unit_at_loc" := (1, 1), "get_adjacent_units" := (1, 1), "distance_between" := (2, 2),
    "free_attack" := (2, 2), "modify_unit_until_end_of_turn" := (3, 3),
    "modify_unit_until_game_state_change" := (3, 3)
  ]

  /** What the game table yields for a call. */
  datatype GameCreated =
    | MutationFunction(kind: MutationKind)
    | RegisteredFunction(name: string)
    | FromTable(c: FormulaSymbols.Created)

  /** `game_formula_functions_symbol_table::create_function`: `set` and `add` first, then
      the registered functions (each constructed with the arity check), then the user
      functions of the table and its backups. */
  function CreateGameFunction(t: FormulaSymbols.TableView, fn: string, nargs: nat): (r: Result<GameCreated>)
    ensures fn == "set" ==> (r == Ok(MutationFunction(SetKind)) <==> 2 <= nargs <= 3) && (r.Fail? <==> !(2 <= nargs <= 3))
    ensures fn == "add" ==> (r == Ok(MutationFunction(AddKind)) <==> 2 <= nargs <= 3) && (r.Fail? <==> !(2 <= nargs <= 3))
    ensures fn != "set" && fn != "add" && fn in Registered ==>
              (r == Ok(RegisteredFunction(fn)) <==> FormulaSymbols.CheckArity(nargs, Registered[fn].0, Registered[fn].1).Ok?)
              && (r.Fail? <==> FormulaSymbols.CheckArity(nargs, Registered[fn].0, Registered[fn].1).Fail?)
    ensures fn != "set" && fn != "add" && fn !in Registered ==>
              (r.Fail? <==> FormulaSymbols.Resolve(t, fn, nargs).Fail?)
              && (r.Ok? ==> r == Ok(FromTable(FormulaSymbols.Resolve(t, fn, nargs).value)))
  {
    if fn == "set" || fn == "add" then
      match FormulaSymbols.CheckArity(nargs, 2, 3)
      case Ok(_) => Ok(MutationFunction(if fn == "set" then SetKind else AddKind))
      case Fail(why) => Fail(why)
    else if fn in Registered then
      match FormulaSymbols.CheckArity(nargs, Registered[fn].0, Registered[fn].1)
      case Ok(_) => Ok(RegisteredFunction(fn))
      case Fail(why) => Fail(why)
    else
      match FormulaSymbols.Resolve(t, fn, nargs)
      case Ok(c) => Ok(FromTable(c))
      case Fail(why) => Fail(why)
  }

  /** The game functions shadow user functions of the same name: a user `set` or `tower`
      is never reached, while a name the game does not define reaches the user table. */
  lemma GameFunctionsShadow(t: FormulaSymbols.TableView, nargs: nat)
    requires 2 <= nargs <= 3
    ensures CreateGameFunction(t, "set", nargs) == Ok(MutationFunction(SetKind))
    ensures CreateGameFunction(t, "tower", 1) == Ok(RegisteredFunction("tower"))
    ensures CreateGameFunction(t, "loc", nargs).Ok? <==> nargs == 2
    ensures FormulaSymbols.Resolve(t, "range", nargs).Ok? ==>
              CreateGameFunction(t, "range", nargs) == Ok(FromTable(FormulaSymbols.Resolve(t, "range", nargs).value))
  {
    assert "tower" in Registered && Registered["tower"] == (1, 1);
    assert "loc" in Registered && Registered["loc"] == (2, 2);
    assert "range" !in Registered;
  }

  // ---------------------------------------------------------------- callables

  /** `location_object::get_value` and `tile_object::get_value`: a location exposes `x`
      and `y`; a tile exposes `loc` (a location object) and `terrain` (the terrain id);
      every other key, and every other kind of value, gives null. */
  function GetValue(v: Value, key: string): (r: Value)
    ensures v.Location? ==> (r != Null <==> key == "x" || key == "y")
    ensures v.TileRef? ==> (r != Null <==> key == "loc" || key == "terrain")
    ensures !v.Location? && !v.TileRef? ==> r == Null
  {
    match v
    case Location(x, y) => if key == "x" then Int(x) else if key == "y" then Int(y) else Null
    case TileRef(x, y, terrain) =>
      if key == "loc" then Location(x, y) else if key == "terrain" then Str(terrain) else Null
    case _ => Null
  }

  /** A tile's `loc` is the location object of its coordinates, so `loc.x` and `loc.y`
      read them back. */
  lemma TileLocReadsBack(x: int, y: int, terrain: string)
    ensures var l := GetValue(TileRef(x, y, terrain), "loc");
      l == LocFunction(Int(x), Int(y)) && GetValue(l, "x") == Int(x) && GetValue(l, "y") == Int(y)
  {
  }
}
