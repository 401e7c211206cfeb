# Wizard Tactics: a Dafny model of the rules engine

This project models the server-side core of Wizard Tactics, a turn-based hex strategy
game with cards. It covers:

- the authoritative game state: players, units, towers, resources, the pass counter,
  the turn and casting pointers, round completion with upkeep, accrual and the embargo
  countdown, moves with tower capture, card play with cost deduction, and the death
  sweep;
- the embedded formula library: the built-in functions, the layered and recursive
  function symbol tables, the `set`/`add` command objects and the key-to-slot variable
  store;
- the tables and board helpers: resources, movement types, terrains, tiles, hex
  geometry, the terrain-area flood fill, unit movement queries;
- the text codecs at the server edge: NUL-delimited message framing, the lobby message,
  per-nick message queues, the HTTP request-line, query and header parsing (a loose
  subset of sections 3.1.1 and 3.2 of RFC 7230 and of section 3.4 of RFC 3986), and the
  XML element writer;
- the older engine and client helpers kept under `bak/`: the deck and hand engine and
  its land cards, colour parsing and arithmetic, texture pixel routines, the
  column-offset hex geometry and the command-line preferences.

Each C++ source file becomes one Dafny module. Objects whose fields the C++ code changes
in place are Dafny classes with `modifies` clauses: the game, units, the symbol tables,
the variable store, the server, the XML writer, the preferences and the registries.
Loops become methods with invariants, proved against specification functions. The pure
parts are functions with lemmas about them. The C++ `variant` is the datatype
`Values.Value`, and wml nodes are attribute maps. Messages arrive already decoded, as
datatypes. Assertion failures become `Fail` results. C++ truncating division and
remainder are modelled explicitly in module `CInt` (wrappers.dfy). A `size_t`
conversion, as in `slice`, is written out as reduction modulo 2^64.

## Model

| member | source | states |
|---|---|---|
| Resource.ResourceId | src/resource.cpp:7-14 | the id of every resource is one of the characters of "gfbshz" |
| Resource.ResourceIcon | src/resource.cpp:30-42 | the icon of resource n is "magic-icon-" followed by that resource's id |
| Resource.IndexOf | src/resource.cpp:44-51 | the searched index exists exactly for the id characters, holds that character and is its first occurrence |
| Resource.ResourceIndex | src/resource.cpp:44-52 | the scan succeeds iff the character is a resource id, and then returns its first position; an unknown character fails |
| Resource.IndexOfResourceId | src/resource.cpp:7-50 | resource_index(resource_id(n)) == n for every resource |
| Resource.ResourcesDistinct | src/resource.cpp:7-28 | distinct resources have distinct ids and distinct names |
| MovementType.EntryOf | src/movement_type.cpp:35-40 | a terrain child's entry costs 10 when the child gives no cost, else the given cost; armour and attack default to 0 |
| MovementType.EntriesLastWins | src/movement_type.cpp:35-40 | a terrain has an entry iff some child names it, and its entry is that of the last child naming it |
| MovementType.Build | src/movement_type.cpp:28-41 | the constructed type keeps the node's id and holds exactly the entries the terrain children define |
| MovementType.GetEntry | src/movement_type.cpp:58-66 | a listed terrain yields its own entry, any other terrain the default entry |
| MovementType.AccessorsOfBuilt | src/movement_type.cpp:35-56 | movement_cost, armor_modification and attack_modification all read the last child's values, with cost 10 and modifiers 0 when omitted |
| MovementType.AccessorsOfUnlisted | src/movement_type.cpp:31-66 | an unlisted terrain costs 10 and modifies neither armour nor attack |
| MovementType.LoadedKeys | src/movement_type.cpp:10-15 | after init the cache holds exactly the earlier ids and the ids of the move children |
| MovementType.LoadedLastWins | src/movement_type.cpp:10-15 | the last move child carrying an id decides the type stored under it |
| MovementType.LoadedKeeps | src/movement_type.cpp:10-15 | an id no move child carries keeps its earlier type |
| MovementType.Registry.constructor | src/movement_type.cpp:6-8 | the cache starts empty |
| MovementType.Registry.Init | src/movement_type.cpp:10-15 | the new cache is the old one with each move child's type stored under its id, in order |
| MovementType.Registry.Get | src/movement_type.cpp:17-26 | the empty id stands for "default"; the lookup succeeds iff the id is cached and then returns the cached type |
| Terrains.DeriveResourceId | src/terrain.cpp:47-68 | the derived index is the resource index of a one-character resource text, -1 otherwise |
| Terrains.ResourceIdOfIds | src/terrain.cpp:61-68 | a one-character resource id gives its own index; text of any other length gives -1; a non-negative result always names the resource whose id is the text |
| Terrains.ProductionValue | src/terrain.cpp:72-75 | the production value lies between difficulty+1 and difficulty+6 |
| Terrains.Construct | src/terrain.cpp:42-68 | the constructed terrain keeps the node's id and difficulty, takes the given overlay rank and derives its resource index |
| Terrains.RegisteredKeys | src/terrain.cpp:24-30 | after init an id is registered iff it was before or some terrain child carries it |
| Terrains.RegisteredLastWins | src/terrain.cpp:24-49 | the terrain under an id is built from the last child carrying it, with overlay rank start+i for the i-th child |
| Terrains.RegisteredUntouched | src/terrain.cpp:24-30 | an id no child carries keeps its terrain |
| Terrains.Registry.constructor | src/terrain.cpp:9-12 | no terrains are registered and the next overlay rank is 1 |
| Terrains.Registry.NewTerrain | src/terrain.cpp:42-50 | constructing a terrain consumes one overlay rank and yields the constructed terrain for the old rank |
| Terrains.Registry.Init | src/terrain.cpp:24-49 | init registers each child in order, last one winning, and advances the overlay rank by the number of children, so ranks strictly increase |
| Terrains.Registry.Get | src/terrain.cpp:32-40 | the result is null exactly for an unregistered id, otherwise the registered terrain |
| Terrains.Registry.All | src/terrain.cpp:14-22 | all() lists exactly the registered ids, in strictly increasing order, hence each once |
| Tiles.NewTile | src/tile.cpp:11-24 | a tile is built iff the data's first token names a registered terrain; it then sits at (x, y) on that terrain, with the second token's value as productivity, or a rolled one when there is no second token |
| Tiles.SetTerrain | src/tile.cpp:26-29 | only the terrain changes: it becomes the registered terrain of that id, or null for an unknown id |
| Tiles.PrandomIndex | src/tile.cpp:32-57 | the hashed index is always below the number of areas |
| Tiles.SelectArea | src/tile.cpp:50-68 | no areas give the zero rectangle; otherwise the choice is one of the areas, the one the location hashes to, so it depends on the location alone |
| Tiles.WriteThenParse | src/tile.cpp:11-73 | reading back a written tile restores its location and terrain but rolls a new productivity, because write emits only the terrain id |
| Boards.IndexInRange | src/game.cpp:553-566 | an on-board location indexes inside the width*height tile vector |
| Boards.IndexInjective | src/game.cpp:553-566 | distinct on-board locations have distinct tile positions |
| Boards.Board.constructor | src/game.cpp:45-46 | a new game is not started and has an empty 0x0 board |
| Boards.Board.GetTile | src/game.cpp:553-566 | get_tile answers iff the game has started and the location is on the board, and then gives the in-range position y*width+x |
| HexGeometry.TilePixelX | src/hex_geometry.hpp:9-15 | on rows y >= 0 the pixel column is x*60, plus 30 on odd rows |
| HexGeometry.TilePixelY | src/hex_geometry.hpp:8-20 | the pixel row is y*38 |
| HexGeometry.TileCenterX | src/hex_geometry.hpp:24-27 | the centre lies half a hex (30 pixels) right of the pixel origin |
| HexGeometry.TileCenterY | src/hex_geometry.hpp:29-32 | the centre lies half a hex (19 pixels) below the pixel origin |
| HexGeometry.PixelPosToLoc | src/hex_geometry.cpp:6-11 | the row is pixel_y/38 and the column (pixel_x - 30 on odd rows)/60, both truncating toward zero |
| HexGeometry.PixelOriginRoundTrip | src/hex_geometry.hpp:12-20 | pixel_pos_to_loc maps every hex's pixel origin back to the hex |
| HexGeometry.PixelCenterRoundTrip | src/hex_geometry.hpp:24-32 | for x, y >= 0 the centre pixel of a hex maps back to the hex |
| HexGeometry.PixelCenterNegativeColumn | src/hex_geometry.hpp:24-32 | the centre round trip fails for column -1: truncating division puts pixel (-30, 19) in column 0 |
| BakHexGeometry.TilePixelX | bak/hex_geometry.hpp:9-35 | the pixel column is x*54 |
| BakHexGeometry.TilePixelY | bak/hex_geometry.hpp:8-40 | on columns x >= 0 the pixel row is y*72, plus 36 on odd columns |
| BakHexGeometry.PixelPosToLoc | bak/hex_geometry.cpp:44-49 | the column is pixel_x/54 and the row (pixel_y - 36 on odd columns)/72, both truncating toward zero |
| BakHexGeometry.PixelOriginRoundTrip | bak/hex_geometry.hpp:32-40 | pixel_pos_to_loc inverts tile_pixel_x/tile_pixel_y on every location |
| BakHexGeometry.TileCornerPixel | bak/hex_geometry.cpp:6-42 | SOUTH_EAST and NORTH_WEST use the hex itself (right and left corner), the other directions the neighbour the switch names, always at half the hex height; an unknown direction fails the assertion |
| FormulaBuiltins.If | src/formula_function.cpp:56-86 | a true condition yields the second argument; a false one the third, or null when there are only two |
| FormulaBuiltins.IfOptimize | src/formula_function.cpp:62-77 | a literal condition is optimised away, and the replacement evaluates to what the call would under every binding; any other condition keeps the call |
| FormulaBuiltins.SwitchFirstMatch | src/formula_function.cpp:96-103 | the value paired with the first key equal to the scrutinee is the result |
| FormulaBuiltins.SwitchNoMatch | src/formula_function.cpp:89-109 | with no matching key the result is the last argument when the count is even, otherwise null |
| FormulaBuiltins.Rgb | src/formula_function.cpp:127-140 | each component is clamped to 0..99 and the result is r*10000+g*100+b, whose digit pairs decode back to the clamped components |
| FormulaBuiltins.Abs | src/formula_function.cpp:224-235 | the result is non-negative and is n or -n |
| FormulaBuiltins.Transition | src/formula_function.cpp:142-176 | 0 outside [begin, end], exactly val1 at begin and val2 at end, and strictly between them a value within the range spanned by val1 and val2 |
| FormulaBuiltins.TransitionInterpolates | src/formula_function.cpp:154-156 | strictly between the ends the value is val1·(end−value) + val2·(value−begin) divided by end−begin, truncated toward zero: at most one below the exact quotient for a non-negative sum, at most one above it for a negative sum |
| FormulaBuiltins.InterpolationBounded | src/formula_function.cpp:154-156 | the truncated interpolation of val1 and val2 strictly inside [begin, end] lies between min(val1, val2) and max(val1, val2) |
| FormulaBuiltins.ConsideredInCases | src/formula_function.cpp:249-261 | min and max see every element of a list argument, the value of an int argument and nothing of any other argument |
| FormulaBuiltins.LeastIsMinimum | src/formula_function.cpp:245-264 | the running minimum is 0 when nothing was seen, else a seen integer no larger than any other |
| FormulaBuiltins.GreatestIsMaximum | src/formula_function.cpp:276-295 | the running maximum is 0 when nothing was seen, else a seen integer no smaller than any other |
| FormulaBuiltins.MinOfList | src/formula_function.cpp:250-255 | folding a list argument into the running minimum gives the minimum of everything seen so far and sets found exactly when something was seen |
| FormulaBuiltins.MinFunction | src/formula_function.cpp:237-266 | min returns the least integer among the int arguments and the list elements, 0 when there is none |
| FormulaBuiltins.MaxOfList | src/formula_function.cpp:281-286 | folding a list argument into the running maximum gives the maximum of everything seen so far |
| FormulaBuiltins.MaxFunction | src/formula_function.cpp:268-297 | max returns the greatest integer among the int arguments and the list elements, 0 when there is none |
| FormulaBuiltins.ConsideredSkipsOtherKinds | src/formula_function.cpp:249-261 | an argument that is neither an int nor a list changes neither min nor max |
| FormulaBuiltins.Choose | src/formula_function.cpp:325-358 | an empty list gives null; otherwise the result is the first item whose key is the greatest |
| FormulaBuiltins.Filter | src/formula_function.cpp:429-464 | filter returns the items the predicate holds of, in their order |
| FormulaBuiltins.FilteredMembers | src/formula_function.cpp:435-463 | an item is in the filtered list iff it is in the list and the predicate holds of it |
| FormulaBuiltins.FilteredAppend | src/formula_function.cpp:435-463 | filtering commutes with concatenation, so kept items keep their relative order |
| FormulaBuiltins.Find | src/formula_function.cpp:484-521 | find returns the first item the predicate holds of, or null when it holds of none |
| FormulaBuiltins.MapItems | src/formula_function.cpp:579-615 | map returns as many values as items, the i-th being the function applied to the i-th item |
| FormulaBuiltins.Sum | src/formula_function.cpp:617-635 | with no items the initial value (default 0) comes back unchanged; otherwise the result is the initial value plus the total of the items |
| FormulaBuiltins.Range | src/formula_function.cpp:637-657 | range(n) is 0, 1, ..., n-1, and empty when n is not positive |
| FormulaBuiltins.SumOfRange | src/formula_function.cpp:617-657 | the total of range(n) is n(n-1)/2 |
| FormulaBuiltins.Head | src/formula_function.cpp:659-669 | head is the first item and fails on an empty list |
| FormulaBuiltins.SizeT | src/formula_function.cpp:694-695 | the converted index lies in [0, 2^64) and equals the index when that is not negative |
| FormulaBuiltins.Slice | src/formula_function.cpp:683-708 | the loop pushes exactly the items from the begin index to the end index, each converted to size_t and reduced modulo the length, and gives null for an empty list or when the end comes before the begin |
| FormulaBuiltins.SliceOfNonNegativeIndices | src/formula_function.cpp:689-707 | for non-negative indices the result is the stretch between b mod size and e mod size when the end is not below the begin, else null |
| FormulaBuiltins.SliceWholeListIsEmpty | src/formula_function.cpp:694-703 | slice(l, 0, size(l)) is the empty list: the end index wraps to 0 |
| FormulaBuiltins.SliceNegativeIndexWraps | src/formula_function.cpp:694-703 | a negative index is converted to size_t before the remainder, so -1 on a 3-item list means 0, not the last item |
| FormulaSymbols.Chain | src/formula_function.cpp:835-847 | the chain of tables searched starts with the table's own definitions |
| FormulaSymbols.Generate | src/formula_function.cpp:774-775 | a call of a user-defined function is built exactly when the argument count equals its parameter count, and then calls that definition |
| FormulaSymbols.ResolveNearest | src/formula_function.cpp:835-847 | resolution takes the definition of the nearest table in the backup chain that defines the name, and succeeds exactly when the call passes as many arguments as that definition has parameters |
| FormulaSymbols.ResolveMissing | src/formula_function.cpp:835-847 | resolution yields the null expression when no table of the chain defines the name |
| FormulaSymbols.FunctionSymbolTable.constructor | src/formula_function.cpp:830-847 | a new table defines nothing and keeps the given backup |
| FormulaSymbols.FunctionSymbolTable.AddFormulaFunction | src/formula_function.cpp:830-833 | add_formula_function (re)defines exactly one name |
| FormulaSymbols.FunctionSymbolTable.CreateFunction | src/formula_function.cpp:835-847 | the table's own definition wins, failing exactly on an argument count other than its parameter count; otherwise the backup resolves the name, or nothing when there is no backup |
| FormulaSymbols.RecursiveSymbolTable.constructor | src/formula_function.cpp:858-861 | the table remembers the function's name, parameters and backup and holds no stubs yet |
| FormulaSymbols.RecursiveSymbolTable.CreateFunction | src/formula_function.cpp:863-877 | a call to the table's own name with the parameter count yields a new stub, appended to the stub list, and with any other count fails without adding one; any other name goes to the backup (or yields nothing) and adds no stub |
| FormulaSymbols.RecursiveSymbolTable.ResolveRecursiveCalls | src/formula_function.cpp:879-884 | after back-patching every stub generated so far runs the given formula |
| FormulaSymbols.CheckArity | src/formula_function.cpp:996-1012 | construction succeeds iff the count is at least a non-negative minimum and at most a non-negative maximum; negative bounds do not limit |
| FormulaSymbols.CreateFunction | src/formula_function.cpp:949-967 | a function the symbol table supplies wins and a failure of the table passes through; otherwise a known built-in is constructed, failing exactly on a bad argument count; an unknown name yields nothing |
| FormulaSymbols.CustomShadowsBuiltin | src/formula_function.cpp:949-958 | a user-defined function shadows the built-in of the same name: a call with its parameter count reaches it, and any other count fails even where the built-in would accept it |
| FormulaSymbols.BuiltinArity | src/formula_function.cpp:996-1012 | if takes 2 or 3 arguments, switch at least 3, mapping any number, null none |
| FormulaSymbols.OptimizeFunctionArguments | src/formula_function.cpp:969-983 | optimisation is disabled exactly for choose, filter, find and map |
| GameFormulaFunctions.MakeMutation | src/game_formula_functions.cpp:259-343 | set and add build a command of their own kind whose value is the last argument; with three arguments the command acts on (first argument, second argument's text, third argument) |
| GameFormulaFunctions.KeyedMutation | src/game_formula_functions.cpp:263-319 | two arguments whose first is a string literal or identifier give a command on a null target under that text or name |
| GameFormulaFunctions.MemberMutation | src/game_formula_functions.cpp:278-329 | two arguments whose first is a member access give a command on that object and member |
| GameFormulaFunctions.ExecuteMutation | src/game_formula_functions.cpp:229-257 | executing a command on an object changes only the named attribute, to the value (set) or to its old value plus the value (add); a null target has nothing to mutate and fails |
| GameFormulaFunctions.MutatedValue | src/game_formula_functions.cpp:235-252 | a set leaves the value; an add leaves the old value plus the value |
| GameFormulaFunctions.MutationsCompose | src/game_formula_functions.cpp:229-257 | an add after a set leaves the sum of the two values, and a second set overrides the first |
| GameFormulaFunctions.Debug | src/game_formula_functions.cpp:87-95 | debug builds a command carrying the debug texts of all arguments in order; with one argument, exactly its text |
| GameFormulaFunctions.DebugFn | src/game_formula_functions.cpp:97-106 | debug_fn evaluates to its first argument |
| GameFormulaFunctions.ReplaceQuotes | src/game_formula_functions.cpp:78-79 | the queued text is the debug text with every double quote replaced by a single quote, character for character |
| GameFormulaFunctions.QuotesReplaced | src/game_formula_functions.cpp:78-81 | the replaced text has the original length and holds no double quote, and text without double quotes is unchanged |
| GameFormulaFunctions.ExecuteDebug | src/game_formula_functions.cpp:74-84 | a message is queued iff a game is running, and it is a debug_message element whose msg attribute is the debug text with its double quotes replaced (quote-free by QuotesReplaced) |
| GameFormulaFunctions.LocFunction | src/game_formula_functions.cpp:385-394 | loc(x, y) is a location object whose x and y read back the two arguments as integers |
| GameFormulaFunctions.Tower | src/game_formula_functions.cpp:114-122 | tower(v) is -1 for a non-location, otherwise the index of a player holding the tower there, or -1 when no player holds it |
| GameFormulaFunctions.TowerNamesHolder | src/game_formula_functions.cpp:114-122 | when each tower has at most one owner, tower(loc) names a player iff that player holds the tower |
| GameFormulaFunctions.ModifyUnitFunction | src/game_formula_functions.cpp:194-227 | the modify_unit_* functions take three arguments and build a command on the first whose modification carries the chosen expiry flag |
| GameFormulaFunctions.ModNodeReadsBack | src/game_formula_functions.cpp:199-206 | the modification read from the built node carries the value in the named attribute, zero in the others, and only the chosen expiry flag |
| GameFormulaFunctions.ExecuteModifyUnit | src/game_formula_functions.cpp:208-210 | executing the command appends the modification to the unit, so each effective stat moves by its delta |
| GameFormulaFunctions.ModifyLifeUntilEndOfTurn | src/game_formula_functions.cpp:213-219 | a life modification until end of turn raises effective life by the value, leaves armour and move alone and expires at the end of the turn |
| GameFormulaFunctions.CreateGameFunction | src/game_formula_functions.cpp:356-373 | set and add come first, then the registered game functions (with their arity checks), then the user tables, whose argument-count failure passes through |
| GameFormulaFunctions.GameFunctionsShadow | src/game_formula_functions.cpp:356-373 | a user function named set or tower is never reached, loc accepts exactly two arguments, and a name the game does not define goes to the user tables |
| GameFormulaFunctions.GetValue | src/game_formula_functions.cpp:385-408 | a location object answers x and y, a tile object loc and terrain, and everything else is null |
| GameFormulaFunctions.TileLocReadsBack | src/game_formula_functions.cpp:382-408 | a tile's loc is the location object of its coordinates, whose x and y read them back |
| VariableStorage.ContentsOverwrite | src/formula_variable_storage.cpp:61-63 | overwriting the slot of a name changes that name's value only |
| VariableStorage.ContentsAppend | src/formula_variable_storage.cpp:64-67 | giving a new name the next slot and appending its value adds that name only |
| VariableStorage.Storage.constructor | src/formula_variable_storage.cpp:6-7 | a new storage is empty and satisfies the slot invariant |
| VariableStorage.Storage.SlotCount | src/formula_variable_storage.cpp:59-68 | under the invariant (the name-to-slot map is a bijection onto 0..size-1) there are exactly as many names as values |
| VariableStorage.Storage.Add | src/formula_variable_storage.cpp:59-68 | an existing name has its slot overwritten and nothing else changes; a new name is mapped to the old length and its value appended; either way the name now holds the value and the invariant is kept |
| VariableStorage.Storage.AddAll | src/formula_variable_storage.cpp:9-14 | adding every entry of a map makes its names take its values and keeps the other names |
| VariableStorage.Storage.FromMap | src/formula_variable_storage.cpp:9-14 | the storage built from a map holds exactly that map |
| VariableStorage.Storage.Merge | src/formula_variable_storage.cpp:70-75 | merging another storage overwrites shared names with its values and keeps this storage's other names |
| VariableStorage.Storage.GetValue | src/formula_variable_storage.cpp:77-85 | a known name yields its value, an unknown one null; after add(k, v) the name k yields v |
| VariableStorage.Storage.GetValueBySlot | src/formula_variable_storage.cpp:87-90 | reading a slot gives the value of the name that owns it |
| VariableStorage.Storage.SetValue | src/formula_variable_storage.cpp:92-95 | set_value behaves as add: the name joins the names and holds the value |
| VariableStorage.Storage.SetValueBySlot | src/formula_variable_storage.cpp:97-100 | only the variable in that slot changes; names and size stay |
| VariableStorage.Storage.EqualTo | src/formula_variable_storage.cpp:16-35 | equal_to holds iff the storage has exactly the map's names, each with the map's value |
| VariableStorage.Storage.GetInputs | src/formula_variable_storage.cpp:102-107 | one read-write input per name, every name listed exactly once, in increasing name order as `std::map` visits its keys |
| Units.WriteModLosesStateFlag | src/unit.cpp:24-42 | reading back a written modification keeps the four numbers and the end-of-turn flag but clears the state-change flag |
| Units.WriteModCounterexample | src/unit.cpp:24-42 | a modification that expires on a change of game state does not survive being written and read back |
| Units.WriteModCorrectedRoundTrip | src/unit.cpp:24-42 | writing the state-change flag too makes reading back the identity |
| Units.TotalAppend | src/unit.cpp:223-251 | the summed deltas of two runs of modifications add up |
| Units.SurvivingMembers | src/unit.cpp:258-277 | exactly the modifications that do not lapse survive the erase loop |
| Units.SurvivingAppend | src/unit.cpp:258-277 | the erase loop keeps the survivors in their order |
| Units.SurvivingIdempotent | src/unit.cpp:258-277 | expiring twice removes nothing more |
| Units.KeyCounter.constructor | src/unit.cpp:16 | the key counter starts at 1 |
| Units.KeyCounter.Assign | src/unit.cpp:14-18 | each key handed out is the counter, which then advances by one, so keys strictly increase |
| Units.Unit.constructor | src/unit.cpp:82-102 | a key attribute of -1 draws the next key from the counter and advances it, any other key is kept with the counter unchanged; the unit holds the given side, kind, location, base life, damage, moved flag and modifications, with an empty path |
| Units.Unit.FromPrototype | src/unit.cpp:71-80 | the copy has the prototype's stats, variables and modifications, the given side and location, and a fresh key from the counter |
| Units.Unit.Stat | src/unit.cpp:223-251 | life(), armor() and move() equal the base value plus the sum of all modifications' deltas |
| Units.Unit.NewTurn | src/unit.cpp:253-266 | the moved flag and the path are cleared and exactly the end-of-turn modifications are dropped, the rest kept in order |
| Units.Unit.GameStateChanged | src/unit.cpp:268-277 | exactly the state-change modifications are dropped, the rest kept in order; location, life, damage, moved flag and path stay |
| Units.Unit.DropExpired | src/unit.cpp:258-277 | the in-place erase loop leaves the modifications that do not lapse, in order |
| Units.Unit.Heal | src/unit.cpp:282-285 | the damage taken returns to 0 and nothing else changes |
| Units.Unit.TakeDamage | src/unit.hpp:73 | the damage taken grows by the amount and nothing else changes |
| Units.Unit.SetMoved | src/unit.hpp:66 | only the moved flag changes |
| Units.Unit.SetLoc | src/unit.cpp:213-216 | only the location changes |
| Units.Unit.AddModification | src/unit.cpp:306-309 | the modification is appended, so each effective stat moves by exactly its delta |
| Units.Unit.DefaultAbility | src/unit.cpp:297-304 | the default ability is the first ability, or none when the unit has none |
| Units.Unit.GetValue | src/unit.cpp:311-329 | side, life (effective), damage, has_moved, loc, vars and vars_turn are answered, and exactly every other key gives null |
| Units.Unit.SetValue | src/unit.cpp:331-344 | damage sets the damage taken, has_moved the flag, and life moves the base so that the effective life and get_value("life") become the new value; other keys change nothing |
| Units.FirstGain | src/unit.cpp:50-57 | the index is that of the first non-zero gain, or 0 when all gains are zero |
| Units.ResourceType | src/unit.cpp:44-58 | a unit with upkeep has the resource of its first upkeep character (failing for a non-resource character); otherwise the first resource its player gains, or 0 |
| UnitAbility.NewAbility | src/unit_ability.cpp:14-24 | the ability's card is "unit.id", range defaults to -1, taps_caster to true and the target count to 0 |
| UnitAbility.ReadWriteAbility | src/unit_ability.cpp:14-42 | reading back what write produced gives the same ability |
| UnitAbility.IsAbilityUsable | src/unit_ability.cpp:50-70 | unusable when it taps a moved caster; an unknown card fails; otherwise usable iff the selector can pay the card's cost and, when targets are needed, enough valid targets exist |
| UnitAbility.UseAbility | src/unit_ability.cpp:72-97 | null iff one of the first ntargets selections is invalid; otherwise a play of the ability's card by the caster with exactly ntargets targets, in selection order |
| Cards.CostOf | src/card.cpp:69-72 | the cost vector has one entry per resource, and entry n counts the occurrences of resource n's id character in the cost string |
| Cards.BuildCost | src/card.cpp:69-72 | the constructor's loop yields exactly the cost vector of the cost string |
| Cards.CostOfTotal | src/card.cpp:69-72 | a cost string made only of resource ids costs, summed over resources, one unit per character |
| Cards.Create | src/card.cpp:512-528 | a card is created iff the type is land, monster, modification, attack or dummy; it then carries the id and cost vector of its attributes, is a land card iff the type is land, a land card lists the comma-separated lands, and a modification card's range defaults to -1 |
| Cards.Cost | src/card.cpp:100-104 | the n-th cost is returned exactly when n indexes the cost vector; any other index fails |
| Cards.CreatedCost | src/card.cpp:62-72 | a created card charges, per resource, the number of that resource's id characters in its cost attribute |
| Cards.LocsOf | src/card.cpp:115-126 | no more locations than elements are taken from a valid-targets value |
| Cards.LocsOfFrom | src/card.cpp:115-126 | every location taken comes from a location object or a tile object of the value |
| Cards.BaseValidTargets | src/card.cpp:106-129 | answers true iff the card has a valid-targets formula; then the result gains the locations of the value's elements, else it is unchanged |
| Cards.OccupiedAroundMembers | src/card.cpp:380-394 | a hex is an attack target iff it is in the radius, is not the caster's hex and is occupied |
| Cards.AttackValidTargets | src/card.cpp:380-394 | answers true iff there is a caster and the range is non-negative; then exactly the occupied hexes of the radius other than the caster's are appended, else the result is unchanged |
| Cards.FinalDamage | src/card.cpp:365-372 | damage never goes below zero; it is damage less defense when that is positive, exactly 1 when the attack does damage that the defense absorbs, and 0 exactly when the attack does no damage and does not exceed defense |
| Cards.Apply | src/card.cpp:214-226 | placing lands keeps the board's size |
| Cards.BackupAfterRepeatedPick | src/card.cpp:224 | as written, a location picked twice holds as its backup the tile after the first land, not the original |
| Cards.RepeatedPickCounterexample | src/card.cpp:224-233 | a one-tile board picked twice is restored to a forest tile, not to its original tile |
| Cards.Picks | src/card.cpp:214-217 | the first n selections, in order, all valid |
| Cards.ApplyStep | src/card.cpp:225-226 | one more pick changes exactly the tile at that location, to the next land |
| Cards.BackupStep | src/card.cpp:224-226 | backing up a location only the first time it is picked keeps every changed tile restorable to the original |
| Cards.PlayLand | src/card.cpp:197-238 | with the corrected backup rule (only the first pick of a hex is backed up, see Findings): on cancellation the board is exactly as before and there is no play; on success every selection was valid, the play names each land at its location in order and the board holds the lands placed in order; an off-board selection fails the tile assertion |
| Cards.Restore | src/card.cpp:227-233 | writing the backups back returns the board to its original tiles |
| Cards.ReadItem | src/card.cpp:534-543 | an item reads iff it has one or two space-separated tokens and the first names a known card |
| Cards.ReadItems | src/card.cpp:533-546 | a deck that reads has one card per item |
| Cards.ReadDeck | src/card.cpp:530-549 | the loop reads exactly the comma-separated items in order, failing at the first bad one |
| Cards.FailurePersists | src/card.cpp:536-539 | once an item fails, the whole deck fails with that item's reason |
| Cards.ItemTexts | src/card.cpp:555-563 | one item text per held card, each the card's written form |
| Cards.WriteDeck | src/card.cpp:551-566 | the result is the item texts joined with commas |
| Cards.ReadWrittenItem | src/card.cpp:534-563 | reading a written item gives back the card and its embargo |
| Cards.ReadWriteDeck | src/card.cpp:530-566 | reading a written deck gives back the same cards with the same embargoes |
| Cards.ReadItemsOfWritten | src/card.cpp:533-563 | the written items read back as the original held cards |
| Cards.IsValidSummoningHex | src/card.cpp:568-594 | true iff the hex exists, is neither void nor occupied, is not a tower of another player, and some unit of the player adjacent to it can summon every upkeep character |
| Games.NextInRange | src/game.cpp:210-279 | from no turn yet or a player's index, the pointer moves to the next player, wrapping to the first after the last |
| Games.SkipsCompleteRound | src/game.cpp:203-220 | skips in a row starting from zero passes complete the round on the last player's skip and not before |
| Games.DecayedProperties | src/game.cpp:235-241 | a positive embargo counts down by one per round, never below zero, and is over once the rounds reach it; a non-positive one is left alone |
| Games.DecayOnce | src/game.cpp:236-240 | each positive embargo of one player's spells drops by one, the others and the cards stay |
| Games.DecaySpellsStep | src/game.cpp:232-241 | counting down once more after k rounds is counting down k + 1 times |
| Games.DecayEmbargoes | src/game.cpp:235-241 | every player's spells are counted down once and nothing else about the players changes |
| Games.Resize | src/game.cpp:244-245 | `resize(n)` gives exactly n entries |
| Games.Upkeep | src/game.cpp:249-265 | one upkeep entry per resource |
| Games.Accrued | src/game.cpp:267-273 | one resource entry per resource |
| Games.RoundPlayers | src/game.cpp:232-274 | a round keeps the number of players |
| Games.RoundResources | src/game.cpp:243-273 | after a round each resource is non-negative, equal to its old value plus income less upkeep when that is not negative; the upkeep is never negative, never above the units' upkeep characters, and free when the player has a tower per upkeep character |
| Games.AddUpkeep | src/game.cpp:255-257 | succeeds iff every upkeep character is a resource id; each resource's upkeep then rises by the occurrences of its id |
| Games.CountUpkeep | src/game.cpp:249-258 | succeeds iff every upkeep character of the side's units is a resource id; the upkeep then counts those characters per resource |
| Games.TowerCountInAdd | src/game.cpp:260-265 | visiting one more tower adds it to the count of its own resource only |
| Games.Relieved | src/game.cpp:260-265 | one upkeep entry per resource |
| Games.RelievedStep | src/game.cpp:261-264 | a tower of resource k takes one off that upkeep unless it is already zero |
| Games.RelievedAll | src/game.cpp:260-265 | after every tower, each upkeep is reduced by the player's towers of that resource, never below zero |
| Games.RelieveTowers | src/game.cpp:260-265 | succeeds iff every tower's resource is a resource id; each upkeep is then reduced by the towers of its resource, never below zero, whatever the visiting order |
| Games.AccrueResources | src/game.cpp:267-273 | the loop gives each resource its income less upkeep, floored at zero |
| Games.CompleteRoundPlayers | src/game.cpp:232-274 | succeeds iff every player's upkeep and tower characters are resource ids, and then yields exactly the round's players |
| Games.AccruePlayer | src/game.cpp:243-273 | one player's accrual succeeds iff its upkeep and tower characters are ids, and then matches the reference accrual |
| Games.FirstOtherOwner | src/game.cpp:463-471 | finds the first player other than the mover holding a tower at the location, or reports that none does |
| Games.OwnerFrom | src/game.cpp:624-639 | the owner is -1 or a player index; it is the first player holding a tower at the location, and -1 exactly when nobody does |
| Games.CaptureResource | src/game.cpp:479 | the captured tower's resource is a resource id: the mover's first upkeep character, which fails when it is not an id |
| Games.Stripped | src/game.cpp:459-472 | the players keep everything but the tower at the location, which at most the first other owner loses |
| Games.StrippedOwners | src/game.cpp:459-472 | with single owners, after the strip no player but the mover holds the tower, and owners stay single |
| Games.CaptureFrame | src/game.cpp:455-481 | a capture fails only on an unreadable resource when a tower is taken, changes nothing when none is, and changes nothing but the towers at the location |
| Games.CaptureOwners | src/game.cpp:455-481 | a capture keeps towers single-owned; a taken tower then belongs to the mover's side with a resource id, or to nobody for a side with no player |
| Games.CaptureOwnership | src/game.cpp:455-481 | the whole capture contract: no change without a tower; otherwise the mover's side is the single owner (nobody for a side with no player), only the towers at the location change, and it fails only on an unreadable resource |
| Games.Survivors | src/game.cpp:676-685 | the sweep keeps no more units than it had |
| Games.SurvivorsAllAlive | src/game.cpp:676-685 | when every unit is alive nothing is removed |
| Games.SurvivorsMembers | src/game.cpp:676-685 | the sweep keeps exactly the living units |
| Games.SurvivorsDistinct | src/game.cpp:676-685 | distinct units stay distinct |
| Games.SurvivorsIdempotent | src/game.cpp:676-685 | a second sweep changes nothing |
| Games.SurvivorsProperties | src/game.cpp:676-685 | exactly the living units, kept distinct, and a second sweep changes nothing |
| Games.FirstAtUnique | src/game.cpp:654-663 | a position holding the location with no earlier one is the one found |
| Games.FirstAt | src/game.cpp:654-663 | finds the first position holding the location, and none iff no position does |
| Games.Repeat | src/game.cpp:440-448 | k copies of the modification |
| Games.HitsOnTargets | src/game.cpp:440-448 | a unit is hit only if it stands at a target, and no unit is hit more often than there are targets |
| Games.Deducted | src/game.cpp:341-348 | paying keeps the number of resources |
| Games.DeductedProperties | src/game.cpp:341-348 | a cost vector of the wrong length changes nothing; a full one lowers the total by its total, and one the player can afford leaves every resource non-negative |
| Games.DeductedCanGoNegative | src/game.cpp:341-348 | affordability is not checked: a card costing more than the player holds drives the resource negative |
| Games.NameIndex | src/game.cpp:697-701 | finds the first resource named by the key, or none iff no resource is |
| Games.PlayerGetAfterSet | src/game.cpp:696-713 | reading a resource after setting it gives the integer set; an unknown key changes nothing; other keys read as before |
| Games.EmbargoCopies | src/game.cpp:334-338 | the loop embargoes exactly as the reference does |
| Games.Deduct | src/game.cpp:341-348 | the loop pays exactly the reference cost |
| Games.LandsOutcome | src/game.cpp:425-431 | placing lands keeps the number of tiles |
| Games.LandsOnBoard | src/game.cpp:426-428 | a play whose lands resolve names only on-board locations of a started game |
| Games.LandsLastWrite | src/game.cpp:425-431 | a location holds the fresh tile of the last land child naming it |
| Games.LandsUntouched | src/game.cpp:425-431 | a tile no land child names is untouched |
| Games.FailFrom | src/game.cpp:428 | once a prefix of the land children fails, the whole play fails |
| Games.LocsOf | src/game.cpp:654-663 | the units' locations, in order |
| Games.LastWithKey | src/game.cpp:320-327 | finds the last unit with the caster's key, or none iff no unit has it |
| Games.Embargoed | src/game.cpp:334-338 | every copy of the card gets an embargo between 1 and 3, other spells are unchanged, and the cards stay |
| Games.Overlay | src/game.cpp:172-176 | one gain per resource: the parsed integers overwrite the leading entries and the rest keep the old gain or zero |
| Games.SetupType | src/game.cpp:523-534 | the two wizard hexes stay grassland; a tower is placed exactly where the hex is not a wizard hex and the tower roll is 0 in 24 |
| Games.BuiltNext | src/game.cpp:519-537 | one more tile builds exactly the location at that row-major position |
| Games.BuiltAll | src/game.cpp:519-537 | after the last row every board location, and nothing else, is built |
| Games.SetupStep | src/game.cpp:521-536 | building the next hex extends the built prefix by one tile and its tower |
| Games.BuildSetupTiles | src/game.cpp:518-537 | the loops succeed iff every tile parses, and then build every hex's tile in row-major order and collect exactly the tower hexes |
| Games.Game.constructor | src/game.cpp:45-48 | a new game is not started, has an empty 0 by 0 board, no players, units or messages, no turn and no caster |
| Games.Game.AddPlayer | src/game.cpp:583-587 | a player with just the name is appended and nothing else changes |
| Games.Game.QueueMessage | src/game.cpp:489-496 | the message is appended, addressed to the player when the index is not negative and to everyone otherwise |
| Games.Game.SwapOutgoingMessages | src/game.cpp:483-487 | the caller receives the queue and the queue is left empty |
| Games.Game.GetUnitAt | src/game.cpp:654-663 | the first unit standing at the location, and none iff no unit stands there |
| Games.Game.TowerOwner | src/game.cpp:624-639 | the first player holding a tower at the location and that tower's resource, or -1 and no resource |
| Games.Game.TowerLocs | src/game.cpp:641-652 | a location is a tower iff it is neutral or some player holds a tower there |
| Games.Game.ResolveCombat | src/game.cpp:676-685 | the units become exactly the survivors: only living units remain, distinct ones stay distinct, all-living units are kept, nothing else changes |
| Games.Game.CaptureTower | src/game.cpp:455-481 | the players become the capture's outcome, the location is no longer neutral, and nothing else changes |
| Games.Game.MoveUnit | src/game.cpp:194-195 | the unit stands at the destination and has moved; its life, damage and modifications stay |
| Games.Game.HandleMove | src/game.cpp:180-197 | fails when no unit stands at the origin; otherwise the first such unit moves and is marked moved, captures at the destination, the animation and the new state are queued, and no other unit changes |
| Games.Game.MoveAndCapture | src/game.cpp:194-197 | the found unit moves and is marked moved, the capture's outcome holds, the state is queued, and no other unit changes |
| Games.Game.HandleSpells | src/game.cpp:167-179 | succeeds iff the player exists and the deck reads; the player's spells become the deck, gain and resources both the overlaid gains, and the state is queued |
| Games.Game.PayForCard | src/game.cpp:320-348 | fails iff a caster key matches no unit; otherwise a hand cast embargoes the card's copies, a tapping caster (the last unit with the key) is marked moved, the cost is deducted, and nothing else changes |
| Games.Game.ResolveLands | src/game.cpp:425-431 | succeeds iff every land child lands on the board, and the board becomes the lands' outcome |
| Games.Game.ResolveMonsters | src/game.cpp:433-438 | succeeds iff every monster type has a prototype; exactly one fresh unit per child is appended, for the playing side at its location, already moved, holding its prototype's kind, modifications, base life and damage |
| Games.Game.ResolveTargets | src/game.cpp:440-448 | each unit gains the card's modification once per target it is the first unit at, for a modification card only; the units' locations, moved flags, life and damage stay |
| Games.Game.ResolveCard | src/game.cpp:418-449 | succeeds iff every land child lands on the board and every monster type has a prototype; the board becomes the lands' outcome, one new unit per monster child is appended for the playing side at its location, already moved, and each earlier unit gains the card's modification once per target it is the first unit at, keeping its location, moved flag, life and damage; players, towers and messages stay |
| Games.Game.ResolveUnits | src/game.cpp:433-448 | succeeds iff every monster type has a prototype; one new unit per monster child is appended for the playing side at its location, already moved, holding its prototype's modifications followed by its target hits; each earlier unit gains its target hits and keeps its location, moved flag, life and damage; nothing else changes |
| Games.Game.PayAndResolve | src/game.cpp:320-349 | succeeds iff a given caster key matches a unit, every land lands and every monster type has a prototype; the player then pays as the cost part states, the board holds the lands, the new units are appended, each earlier unit gains its target hits, and only the tapping caster (the last unit with the key) becomes moved |
| Games.Game.PlayCard | src/game.cpp:310-353 | succeeds iff the caster, the lands and the monster types are found; the player pays, the board holds the lands, one new unit per monster child is created for the playing side at its location, only living old or new units remain and a snapshot is queued |
| Games.Game.HandlePlay | src/game.cpp:310-354 | succeeds iff the card and the player exist, a given caster key matches a unit, every land lands and every monster type has a prototype; then the cost is paid, embargoes set for a hand cast, the lands placed, the monsters created, only living old or new units remain, the state is queued and the passes reset |
| Games.Game.SweepAndSnapshot | src/game.cpp:351-353 | the units become exactly the old survivors, in order, and a snapshot is queued; nothing else changes |
| Games.Game.ResweepLiving | src/game.cpp:226-230 | a sweep of all-living units removes nothing |
| Games.Game.CompleteRound | src/game.cpp:220-287 | fails without an acting player, and on any failure the players, the turn pointers and every unit's moved flag, path and modifications stay; otherwise the players become the round's players, the turn moves on, the caster follows it, and every unit is unmoved, has no path and keeps only the modifications that outlive the turn; locations, life and damage stay and the passes reset |
| Games.Game.EndTurn | src/game.cpp:202-291 | the passes count or reset, the caster moves on and the units become the old survivors in order; when the passes reach the player count the round completes and every remaining unit is unmoved, has no path and keeps only the modifications that outlive the turn, otherwise no unit's turn state changes; locations, life and damage stay; the state and the new casting player's turn are queued |
| Games.Game.CountPass | src/game.cpp:203-216 | the passes count a skip or reset, the caster moves on cyclically, only living units remain |
| Games.Game.AnnounceTurn | src/game.cpp:290-291 | a snapshot is queued, then a new-turn notice naming the casting player, which fails when no such player exists |
| Games.Game.SetupBoard | src/game.cpp:513-537 | the game starts on a 16 by 16 board; it succeeds iff every tile parses, and then the board is laid out row by row and every tower hex becomes neutral |
| Games.Game.SetupGame | src/game.cpp:511-551 | the board is laid out, two wizards for sides 0 and 1 are added at (2,8) and (12,8), and the first two players get their castles at (1,14) and (13,14) |
| Games.Game.HandleSetup | src/game.cpp:159-166 | succeeds iff the board parses, the wizard prototype exists and there is a player; then the 16 by 16 board is laid out row by row with every tower hex neutral, two wizards are appended for sides 0 and 1 at (2,8) and (12,8), the first two players get their castles, the state and the first player's turn are queued, and the game plays with the first player on turn and casting |
| Games.Sweep | src/game.cpp:678-684 | the scan keeps exactly the living units, in order, keeping them distinct and keeping all-living units |
| Games.NewTurnAll | src/game.cpp:283-285 | every unit has not moved, has no path and keeps only the modifications that outlive the turn; location, life and damage stay |
| Games.FindUnitAt | src/game.cpp:654-663 | the scan finds the first unit at the location |
| Games.ApplyTargets | src/game.cpp:440-448 | each unit gains the modification once per target it is the first unit at; no unit moves |
| Games.ApplyTarget | src/game.cpp:441-447 | only the first unit at the target gains the modification |
| Games.TargetStep | src/game.cpp:440-448 | one more target adds one more copy exactly to the unit it hits |
| GameUtils.TileAt | src/game_utils.cpp:15-30 | a tile is found exactly where `get_tile` finds one, and it is the board's tile at that index |
| GameUtils.TerrainArea | src/game_utils.cpp:8-37 | with no tile at the location, 0 and the set unchanged; otherwise the result is the set's new size, the set only grows, holds the location, every hex it gains has the location's terrain, and every neighbour of a gained hex with that terrain is in the set |
| GameUtils.ClosedGrows | src/game_utils.cpp:25-34 | closure of the filled area is kept when the set grows |
| GameUtils.TowerResourceProduction | src/game_utils.cpp:39-48 | 0 with no tile or a terrain producing another resource; a null terrain fails; otherwise one plus half the filled area, which holds the tower, so at least 1 |
| UnitUtils.TerrainIdAt | src/unit_utils.cpp:12-50 | nothing iff there is no tile at the location; fails iff the tile's terrain is null; otherwise the terrain's id |
| UnitUtils.MovementCost | src/unit_utils.cpp:10-20 | -1 with no tile at the destination; otherwise the movement type's cost for the destination's terrain, failing on a null terrain |
| UnitUtils.AllowedToMove | src/unit_utils.cpp:22-34 | an occupied hex and a hex off the board are refused |
| UnitUtils.AllowedAgreesWithCost | src/unit_utils.cpp:10-43 | a hex the unit may move into is a legal endpoint; a free hex may be entered exactly when it is on the board and stepping into it has a known non-negative cost; both fail on the same unreadable terrain |
| UnitUtils.UnitProtection | src/unit_utils.cpp:45-54 | the unit's armour, plus the movement type's modifier for the terrain it stands on when there is a tile, failing on a null terrain |
| UnitUtils.ProtectionOnUnlistedTerrain | src/unit_utils.cpp:45-54 | on a terrain the movement type does not list, protection is the bare armour |
| PlayerInfos.ContainsAt | src/player_info.cpp:13-15 | the substring search succeeds iff the word occurs at some position |
| PlayerInfos.RemoveDummies | src/player_info.cpp:21-28 | the collection keeps exactly the cards that are not dummies |
| PlayerInfos.WithoutMembers | src/player_info.cpp:44-48 | removing an id keeps exactly the other cards, never adds any, and doing it twice is doing it once |
| PlayerInfos.AddKeepsWellFormed | src/player_info.cpp:31-42 | adding a card the deck may take keeps it at most ten distinct cards from the collection |
| PlayerInfos.WithoutKeepsWellFormed | src/player_info.cpp:44-48 | removing cards keeps a deck well formed |
| PlayerInfos.SumUpdate | src/player_info.cpp:57-66 | changing one entry by delta changes the total by delta |
| PlayerInfos.FitResources | src/player_info.cpp:74-76 | one entry per resource: the parsed gains in order, then zeros |
| PlayerInfos.PlayerInfo.constructor | src/player_info.cpp:24-80 | the player has the node's id, the fitted resource gains, the spells as deck, and every known card except the dummies as collection |
| PlayerInfos.PlayerInfo.AddToDeck | src/player_info.cpp:31-42 | accepts iff the deck has fewer than ten cards, lacks the card and the collection has it; only then is the card appended |
| PlayerInfos.PlayerInfo.RemoveFromDeck | src/player_info.cpp:44-48 | every copy of the card leaves the deck, the rest keep their order, and the answer is true |
| PlayerInfos.PlayerInfo.ModifyResources | src/player_info.cpp:50-69 | an unknown resource fails; the change is accepted iff the entry exists, the total stays at most ten and the entry stays non-negative; then only that entry changes, by delta |
| AiPlayers.PlayerPayCost | src/ai_player.cpp:214-224 | a cost is payable iff every entry has a resource entry at least as large |
| AiPlayers.CastingTurnAnswer | src/ai_player.cpp:186-194 | on its casting turn the AI always answers; it sends an end_turn exactly when it plays no card, always last, and a skip exactly when nothing else is sent |
| AiPlayers.AiPlayer.constructor | src/ai_player.cpp:25-27 | the AI plays for its player and has not sent its deck |
| AiPlayers.AiPlayer.Play | src/ai_player.cpp:54-198 | the first call sends only the deck; afterwards nothing unless the AI is casting; then the decision's messages, followed by an end_turn when there are none (a skip) or after a bare move |
| AiPlayers.SelectLoc | src/ai_player.cpp:40-51 | a chosen location is a valid tile holding a unit of another side; no choice means every valid tile holds one of the AI's own units |
| AiPlayers.PlayerSelectLoc | src/ai_player.cpp:37-52 | the scan returns the first valid tile with an enemy unit, or the invalid location, and fails on a valid empty tile before it |
| Servers.FrameConcat | src/server.cpp:98-109 | the messages framed do not depend on where the stream is cut into chunks |
| Servers.FrameMessages | src/server.cpp:98-109 | each framed message ends with its NUL and holds no other, and the leftover buffer holds none |
| Servers.FrameSkip | src/server.cpp:101-102 | bytes before the first NUL only extend the partial buffer |
| Servers.FindNul | src/server.cpp:101 | the position of the first NUL, or the end when there is none |
| Servers.ClientList | src/server.cpp:393-401 | the clients joined with commas, in order |
| Servers.ClientListReadsBack | src/server.cpp:393-401 | a nick list written into the lobby message splits back into the same nicks |
| Servers.Remaining | src/server.cpp:151-158 | entering the lobby never adds games |
| Servers.RemainingMembers | src/server.cpp:151-158 | a game remains iff it did not list the nick |
| Servers.RemainingKeepsOthers | src/server.cpp:151-158 | games none of which lists the nick are all kept, in order |
| Servers.RemainingIdempotent | src/server.cpp:151-158 | entering the lobby twice leaves the games as entering once does |
| Servers.ScheduleSticks | src/server.cpp:429-436 | once set at a non-negative beat the write target is non-zero and never changes again |
| Servers.XmlAttributesReadBack | src/server.cpp:19-35 | a number written into an attribute reads back; a missing attribute reads as 0 and as the empty string |
| Servers.Server.constructor | src/server.cpp:42-45 | a new server has no connections, queues, games or waiting sockets, no player records, beat 0 and no write scheduled |
| Servers.Server.HandleIncomingData | src/server.cpp:98-109 | the completed messages are exactly the framing of the partial buffer and the bytes, and the buffer keeps what follows the last NUL |
| Servers.Server.Login | src/server.cpp:148-149 | the connection takes the nick |
| Servers.Server.QueueMsg | src/server.cpp:300-303 | the message is appended at the back of the nick's queue |
| Servers.Server.PopFront | src/server.cpp:291-347 | the front message leaves the queue and is the one delivered, first in first out |
| Servers.Server.Disconnect | src/server.cpp:328-332 | the socket stops waiting and its connection is forgotten |
| Servers.Server.Touch | src/server.cpp:277 | looking a nick up gives it a client entry with an empty queue when it has none, and changes no queue's contents |
| Servers.Server.SendFront | src/server.cpp:279-295 | another socket waiting for the nick, if any, gets a heartbeat, then this socket gets the front message, which leaves the queue and is recorded as delivered; exactly these one or two sockets leave the waiting map and the connections, and every other socket keeps its entries |
| Servers.Server.CloseAjax | src/server.cpp:273-298 | with nothing queued the nick gets a client entry and the socket waits for it; otherwise another socket waiting for the nick, if any, gets a heartbeat and is dropped, then this socket gets the front message and is dropped; exactly these sockets leave the waiting map and the connections, and the others keep their entries |
| Servers.Server.ScheduleWrite | src/server.cpp:429-436 | the target becomes the beat plus ten only while it is unset |
| Servers.Server.DeliverTo | src/server.cpp:343-352 | a waiting socket gets its nick's front message, which is popped from the queue, when one is queued; else a heartbeat on a heartbeat beat, else nothing, and the nick gets a client entry |
| Servers.Server.DeliverAll | src/server.cpp:340-353 | each waiting socket is offered once: the sends go to distinct waiting sockets, a heartbeat only on a heartbeat beat to a socket whose nick's queue is empty, a socket sent nothing finds its queue empty on another beat, each nick's old queue is what was sent from it in order followed by what is left, and the client entries grow by the offered sockets' nicks |
| Servers.Server.DisconnectAll | src/server.cpp:355-358 | exactly the listed sockets leave the waiting map and the connections; every other socket keeps its entries |
| Servers.Server.Heartbeat | src/server.cpp:334-371 | the beat count rises by one; the sends go to distinct waiting sockets, which are dropped, and exactly the others keep waiting, each with an empty queue for its nick; none are left on a heartbeat beat; heartbeats go only on a heartbeat beat; each nick's old queue is what was sent from it, in order, followed by what is left; the waiting sockets' nicks get client entries; the waiting map and the connections lose exactly the sockets sent something; and the data is written whenever the beat reaches the target |
| Servers.Server.GetPlayerInfo | src/server.cpp:418-427 | the nick's record: the existing one unchanged, or a new record with the nick as id that is kept from then on |
| Servers.Server.LeaveGames | src/server.cpp:151-158 | exactly the games listing the nick are dropped, the others kept in order |
| Servers.Server.EnterLobby | src/server.cpp:150-167 | the nick leaves its games, is queued the lobby message and then its player record, which exists afterwards |
| Servers.Server.Announce | src/server.cpp:160-163 | the lobby message is queued for the nick |
| Servers.Server.SendLobbyMsg | src/server.cpp:408-416 | every nick with a client entry (including one created by a poll of an empty queue) is queued the lobby message, and no other |
| Servers.Server.CreateLobbyMsg | src/server.cpp:386-406 | the lobby message, one game element per game in order, is appended to the text |
| Servers.WriteGames | src/server.cpp:389-404 | the loop writes one game element per game, in order |
| Servers.WriteGame | src/server.cpp:390-403 | one game element with the started flag and the clients |
| WebServer.IndexOfFrom | src/web_server.cpp:139 | the position of the first occurrence of the character at or after the start, or the end |
| WebServer.IndexOf | src/web_server.cpp:79 | the position of the first occurrence of the character, or the end |
| WebServer.IndexOfIs | src/web_server.cpp:79 | the first occurrence is at k when the character is there and nowhere before |
| WebServer.IndexOfIsEnd | src/web_server.cpp:79-81 | a string without the character is read to its end |
| WebServer.Find | src/web_server.cpp:139 | the scan finds the first occurrence at or after the start |
| WebServer.FirstOccurrence | src/web_server.cpp:149-151 | the word occurs at the position found, at or after the start, and nowhere between the start and it |
| WebServer.FirstOccurrenceIs | src/web_server.cpp:199 | the first occurrence is at b when the word occurs there and nowhere before |
| WebServer.ReplaceAtStart | src/web_server.cpp:149-151 | replacing in a string that starts with the word replaces that prefix |
| WebServer.ReplaceAbsent | src/web_server.cpp:149-151 | replacing a word that occurs nowhere changes nothing |
| WebServer.ArgsOfNames | src/web_server.cpp:88-98 | a name is an argument iff some piece with an `=` names it |
| WebServer.ArgsOfLastWins | src/web_server.cpp:88-98 | an argument's value comes from the last piece naming it |
| WebServer.ParseRequest | src/web_server.cpp:78-102 | the loop computes the reference request, whose path holds no `?` |
| WebServer.QueryReadsBack | src/web_server.cpp:78-102 | a path with a one-piece query `name=value` reads back as that path and that argument |
| WebServer.SplitSingle | src/web_server.cpp:88 | a single trimmed piece free of the separator splits into itself |
| WebServer.ArgsOfSingle | src/web_server.cpp:89-97 | one piece with an `=` gives exactly its argument |
| WebServer.LowerString | src/web_server.cpp:117 | the i-th character is the lower case of the input's i-th character |
| WebServer.EnvKeysLower | src/web_server.cpp:104-124 | every key of the environment is lower case |
| WebServer.HeaderFieldReads | src/web_server.cpp:109-118 | a `Name: value` line reads as the lower-cased name and the value |
| WebServer.ToLower | src/web_server.cpp:117 | the loop lower-cases every character |
| WebServer.ReadHeaderField | src/web_server.cpp:109-118 | one line reads as the reference header field |
| WebServer.ParseEnv | src/web_server.cpp:104-124 | the loop computes the reference environment, later lines overwriting earlier ones |
| WebServer.NoDaveIn | src/web_server.cpp:149-151 | a path without "/dave/" has neither longer prefix either |
| WebServer.RewriteWww | src/web_server.cpp:149-151 | a static page under "/dave/" is served from "www/" |
| WebServer.RewriteData | src/web_server.cpp:149-151 | a data file under "/dave/wizard-data/" is served from "data/" |
| WebServer.ExtensionStart | src/web_server.cpp:173-177 | the walk stops at the last `.` after the first character, or at the start |
| WebServer.ExtensionOfSuffix | src/web_server.cpp:173-179 | the extension of a name ending in `.` and a dot-free suffix is that part |
| WebServer.ContentType | src/web_server.cpp:172-186 | the content type is the one the last extension maps to |
| WebServer.LineStart | src/web_server.cpp:224-231 | the line holding a position starts after the last newline before it, or at the start |
| WebServer.LineStartAfter | src/web_server.cpp:224-231 | that start is just after a newline when no newline lies between |
| WebServer.UserStart | src/web_server.cpp:224-231 | the backward scan stops at the start of the line before the payload |
| WebServer.HandleGet | src/web_server.cpp:138-196 | a target with no space after it closes the socket; a GET with no header line does nothing; otherwise the rewritten path is answered using the parsed query and header fields |
| WebServer.Respond | src/web_server.cpp:165-196 | "/" with a user gets the main page filled with host and user; a relative path gets its file with its content type, or not found when empty; anything else is not found |
| WebServer.HandlePost | src/web_server.cpp:197-241 | with no "\n<" the body is awaited; otherwise the user is the line before it and the payload runs from its '<' to the first NUL; the socket is never closed |
| WebServer.HandleMessage | src/web_server.cpp:128-246 | under 16 bytes, or neither GET nor POST, closes the socket; otherwise the GET or POST outcome |
| WebServer.PostNamesUser | src/web_server.cpp:197-241 | a POST whose payload follows the line naming the user hands that user and the payload from its `<` on |
| XmlWriter.BaseIndex | src/xml_writer.cpp:57 | the position of the base element registered for the name, -1 exactly when none is |
| XmlWriter.BasedNamesAre | src/xml_writer.cpp:54-63 | after k children, the names whose base element is out are exactly those with a registered base among the first k children |
| XmlWriter.EmitsBaseFirst | src/xml_writer.cpp:57-63 | a child is preceded by its base element iff a base is registered for its name and no earlier child has that name |
| XmlWriter.BaseOncePerName | src/xml_writer.cpp:54-63 | each name's base element is written at most once, before the first child of that name |
| XmlWriter.OrderedPairsAre | src/xml_writer.cpp:28-35 | the ordered attributes are written with their values unless the base element has the same value |
| XmlWriter.OtherPairsAre | src/xml_writer.cpp:37-48 | the other attributes follow, each unless the attribute order names it or the base has the same value |
| XmlWriter.OrderedPairsDistinct | src/xml_writer.cpp:28-35 | an attribute order without repeats writes no attribute twice |
| XmlWriter.LinesSnoc | src/xml_writer.cpp:34-47 | one more attribute adds one more attribute line |
| XmlWriter.Writer.constructor | src/xml_writer.cpp:12-16 | a new writer has empty text and an empty indent |
| XmlWriter.Writer.WriteOrdered | src/xml_writer.cpp:28-35 | the loop appends the lines of the ordered attributes and keeps the indent |
| XmlWriter.Writer.WriteOthers | src/xml_writer.cpp:37-48 | the loop appends the lines of the other attributes and keeps the indent |
| XmlWriter.Writer.Write | src/xml_writer.cpp:18-69 | the element's text at the current indent is appended, and the indent is left as found |
| XmlWriter.Writer.WriteChildren | src/xml_writer.cpp:54-66 | the children, each preceded by its base element the first time its name has one, are appended |
| XmlWriter.Writer.WriteChild | src/xml_writer.cpp:57-65 | one child (and its base, the first time) is appended and the set of written bases grows to match |
| XmlWriter.AppendAssoc | src/xml_writer.cpp:21-68 | appending text in steps is appending it at once |
| XmlWriter.Output | src/xml_writer.cpp:71-76 | the output is the element's text with an empty indent |
| ColorUtils.HexDigitValue | bak/color_utils.cpp:15 | a hex digit's value is below 16 |
| ColorUtils.LeadingHex | bak/color_utils.cpp:15 | the longest prefix of hex digits |
| ColorUtils.StringToColor | bak/color_utils.cpp:11-21 | the fourth byte is always 0, and a string not six characters long gives all zeros |
| ColorUtils.HexChar | bak/color_utils.cpp:15 | a digit below 16 is written as the hex digit of that value |
| ColorUtils.HexByte | bak/color_utils.cpp:15 | a byte is written as two hex digits |
| ColorUtils.HexDigitsValueAppend | bak/color_utils.cpp:15 | appending a byte's two digits shifts the value by a byte and adds the byte |
| ColorUtils.LeadingHexAll | bak/color_utils.cpp:15 | a string of hex digits is read whole |
| ColorUtils.StringToColorOfHex | bak/color_utils.cpp:11-21 | red, green and blue written as six hex digits read back, with the fourth byte 0 |
| ColorUtils.UnpackBytes | bak/color_utils.cpp:15-18 | three bytes packed high byte first unpack to themselves |
| ColorUtils.Clamp | bak/color_utils.cpp:27-30 | a value in 0..255 is kept; below 0 gives 0, above 255 gives 255 |
| ColorUtils.RgbaOfFromRgba | bak/color_utils.cpp:33-37 | a packed value comes back unchanged |
| ColorUtils.FromRgbaOfRgba | bak/color_utils.cpp:33-37 | unpacking a packed colour gives the colour back |
| ColorUtils.ParseColor | bak/color_utils.cpp:39-64 | the loop parses the string as the reference does: four numbers name the colour, three get alpha 255, anything else is all zeros |
| ColorUtils.ReadChannels | bak/color_utils.cpp:46-51 | the i-th number goes into the i-th channel and the rest of the array is untouched |
| ColorUtils.ByteText | bak/color_utils.cpp:49 | a byte's decimal text is non-empty, trimmed and free of commas |
| ColorUtils.ChannelOfText | bak/color_utils.cpp:49 | a byte's text reads back as the byte |
| ColorUtils.ColorOfRgbaText | bak/color_utils.cpp:39-51 | "r,g,b,a" reads back as the colour |
| ColorUtils.ColorOfRgbText | bak/color_utils.cpp:52-60 | "r,g,b" reads back as the colour with alpha 255 |
| ColorUtils.ColorPackingTests | bak/color_utils.cpp:170-177 | color(758492) keeps its value, and the integer constructor packs as the packed constructor unpacks |
| ColorUtils.ColorStringTests | bak/color_utils.cpp:179-184 | four numbers name the colour they list, and three numbers that colour with alpha 255 |
| ColorUtils.Buf | bak/color_utils.hpp:65-66 | the component array has four entries |
| ColorUtils.ParseTransform | bak/color_utils.cpp:95-104 | the loop fills every component with 255 and overwrites one per number while there is room, as the reference does |
| ColorUtils.ComponentTexts | bak/color_utils.cpp:109-115 | the decimal texts of the four components |
| ColorUtils.ToString | bak/color_utils.cpp:106-118 | the four components joined with commas |
| ColorUtils.ComponentOfText | bak/color_utils.cpp:101-114 | a component's text reads back as the component |
| ColorUtils.TransformTextRoundTrip | bak/color_utils.cpp:95-118 | reading back the text of any transform gives the transform |
| ColorUtils.ExtraComponentsIgnored | bak/color_utils.cpp:99-103 | numbers past the fourth change nothing |
| ColorUtils.MissingComponentsOpaque | bak/color_utils.cpp:97-103 | components with no number stay at 255 |
| ColorUtils.FitsInColor | bak/color_utils.cpp:136-145 | fits iff no component is above 255 |
| ColorUtils.ToColorExact | bak/color_utils.cpp:121-134 | each component saturates at 255, so the conversion loses nothing exactly when the transform fits |
| ColorUtils.Plus | bak/color_utils.cpp:147-150 | alpha is the larger of the two; red, green and blue are the sums when they fit 16 bits |
| ColorUtils.Minus | bak/color_utils.cpp:152-168 | red, green and blue never grow and are 0 exactly when the right operand is at least as large; alpha is the left one's, capped at 255 |
| ColorUtils.Subtract | bak/color_utils.cpp:152-168 | the loop computes the reference subtraction |
| ColorUtils.PlusCommutes | bak/color_utils.cpp:147-150 | addition does not depend on the order of the operands |
| ColorUtils.MinusUndoesPlus | bak/color_utils.cpp:147-168 | subtracting what was added undoes the addition when no sum wraps and the left alpha is the larger and fits a byte |
| Texture.NextPowerOf2 | bak/texture.cpp:114-124 | for 1 <= n <= 2^31 the smallest power of two not below n; 0 and anything above 2^31 wrap to 0 |
| Texture.NextPot | bak/texture.cpp:393-401 | the smallest power of two not below n, and 1 for n <= 1 |
| Texture.AlphaAddedCopies | bak/texture.cpp:292-308 | each pixel of the copied rectangle holds the source pixel's red, green and blue, and an alpha of 0xFF |
| Texture.AlphaAddedKeeps | bak/texture.cpp:292-308 | a destination byte outside the copied rectangle keeps its value |
| Texture.RowCopiedStep | bak/texture.cpp:300-303 | one more pixel writes three source bytes and an opaque alpha |
| Texture.CopyRow | bak/texture.cpp:299-304 | the inner loop copies exactly one row |
| Texture.AddAlphaChannel | bak/texture.cpp:292-308 | a destination narrower than the source fails and nothing is written; otherwise the destination becomes the source copied into its top-left corner with opaque alpha |
| Texture.KeyedAlphaStep | bak/texture.cpp:317-322 | one more pixel clears its alpha exactly when it is a key colour |
| Texture.SetAlphaForTransparentColors | bak/texture.cpp:310-324 | the loop applies the pass to the w times h pixels |
| Texture.KeyedAlphaPixel | bak/texture.cpp:315-322 | colour bytes never change, and an alpha becomes 0 exactly for the brown or red key colour |
| Texture.KeyedAlphaIdempotent | bak/texture.cpp:310-324 | running the pass twice changes nothing more |
| Texture.RunsRound | bak/texture.cpp:610-611 | every entry of the runs is its index divided by 17, rounded to the nearest integer |
| Texture.TableRounds | bak/texture.cpp:609-611 | the 256-entry table maps a channel to the nearest of 16 levels |
| Texture.Level | bak/texture.cpp:617-624 | a channel maps to 17 times its rounded 4-bit level |
| Texture.MapColorBytes | bak/texture.cpp:615-625 | each byte of the result is the level of the same byte of the colour |
| Texture.LevelNearest | bak/texture.cpp:615-625 | a level is a multiple of 17 within 8 of the channel, keeps the order of channels, and maps to itself |
| Preferences.DrawMask | bak/preferences.cpp:40 | the mask is ~1 (all bits but the lowest) exactly when the actual screen is narrower than the virtual one, and ~0 otherwise |
| Preferences.WideWidthRatio | bak/preferences.cpp:79-80 | the 16:9 width of a non-negative height is the largest width whose ratio to it does not exceed 16:9, and it grows with the height |
| Preferences.Prefs.constructor | bak/preferences.cpp:8-41 | the initial flags are off, the screens are 1024x768 on the desktop and 960x640 virtual, 320x480 actual and rotated on the phone, and the mask agrees with the widths |
| Preferences.Prefs.RecalculateDrawMask | bak/preferences.cpp:44-46 | afterwards the mask agrees with the current widths |
| Preferences.Prefs.SetUsePrettyScaling | bak/preferences.cpp:65-67 | the pretty-scaling flag takes the value |
| Preferences.Prefs.SetFullscreen | bak/preferences.cpp:73-75 | the fullscreen flag takes the value |
| Preferences.Prefs.SetLoadCompiled | bak/preferences.cpp:120-123 | the load-compiled flag takes the value |
| Preferences.Prefs.SetWidescreen | bak/preferences.cpp:77-82 | both widths become the 16:9 width of their heights and the mask follows them |
| Preferences.Prefs.SetActualScreenWidth | bak/preferences.cpp:104-108 | the actual width takes the value and the mask follows it |
| Preferences.Prefs.SetActualScreenHeight | bak/preferences.cpp:110-113 | the actual height takes the value and the mask, which depends on the widths only, stays right |
| Preferences.Prefs.ParseArg | bak/preferences.cpp:135-154 | the argument is accepted exactly when it is one of the six known flags; each flag turns on its own preference, --widescreen sets both widths to 16:9, and an unknown argument changes nothing |
| BakCards.Create | bak/card.cpp:34-106 | a card is created iff the type is land; it then carries the id, the name, the comma-separated lands and one cost entry per resource |
| BakCards.Cost | bak/card.cpp:46-50 | the n-th cost is returned exactly when n indexes the cost vector |
| BakCards.CreatedCost | bak/card.cpp:37-50 | a created card charges, per resource, the number of that resource's id characters in its cost attribute |
| BakCards.Get | bak/card.cpp:19-32 | a known id yields its card, any other id a null card |
| BakCards.Copies | bak/card.cpp:121-123 | exactly max(count, 0) copies, each the given card |
| BakCards.ReadItem | bak/card.cpp:113-118 | an item fails iff it does not have one or two space-separated tokens |
| BakCards.ReadDeck | bak/card.cpp:108-127 | the loop reads exactly the comma-separated items in order, failing at the first bad one |
| BakCards.PushCopies | bak/card.cpp:121-123 | the result gains exactly the copies of the card, none for a count below one |
| BakCards.FailurePersists | bak/card.cpp:114 | once an item is illegal, the whole deck fails |
| BakCards.ReadCountedItem | bak/card.cpp:115-123 | "count id" reads as count copies of the card |
| BakCards.ReadSingleItem | bak/card.cpp:115-123 | a lone id reads as one copy of its card |
| BakCards.Ids | bak/card.cpp:137 | the ids of the cards, one per card in order |
| BakCards.WriteDeck | bak/card.cpp:129-141 | fails iff a card is null; otherwise the ids joined with commas |
| BakCards.ReadWrittenDeck | bak/card.cpp:108-141 | reading a written deck of known cards gives back the same cards |
| BakCards.ReadItemsOfIds | bak/card.cpp:112-137 | the written ids read back as the original cards |
| BakCards.PlayLandCard | bak/card.cpp:75-94 | a play results iff every selection is valid; it names the card and places each land, in order, at its selection |
| BakGame.Reverse | bak/game.cpp:147-150 | the i-th element of the reversal is the (n-1-i)-th of the input |
| BakGame.ReverseMultiset | bak/game.cpp:147-150 | reversing keeps the same cards |
| BakGame.DrawCount | bak/game.cpp:147-150 | no more cards are drawn than the deck holds |
| BakGame.DrawnFromBack | bak/game.cpp:143-151 | the hand gains the deck's last cards, the last card first, and the deck keeps the rest in order |
| BakGame.DrawnFills | bak/game.cpp:147 | the hand is filled up to five cards, or as far as the deck allows, and a hand of five or more is left alone; a hand left short means the deck is empty |
| BakGame.DrawnConserves | bak/game.cpp:147-150 | deck and hand together hold the same cards as before |
| BakGame.FindFrom | bak/game.cpp:121-127 | finds the first card with the id, reports none iff every card is non-null with another id, and fails iff a null card is reached first |
| BakGame.RemoveNulls | bak/game.cpp:129 | no null card remains |
| BakGame.RemoveNullsAppend | bak/game.cpp:129 | erasing nulls distributes over concatenation |
| BakGame.RemoveNullsKeeps | bak/game.cpp:129 | a hand without nulls is unchanged |
| BakGame.PlayRemovesFirst | bak/game.cpp:121-129 | in a hand without nulls, playing a card removes exactly the first card with that id, keeping the rest in order, one copy fewer of it |
| BakGame.RemoveAt | bak/game.cpp:124-129 | resetting one card of a null-free hand and erasing nulls drops exactly that card |
| BakGame.TileIndex | bak/game.cpp:213-226 | a tile is found iff the game has started and (x, y) is on the board; its index is row-major, with column x and row y |
| BakGame.RowMajor | bak/game.cpp:225 | the row-major index of an on-board location is in range and decodes back to it |
| BakGame.PlaceLands | bak/game.cpp:133-138 | placing lands keeps the number of tiles |
| BakGame.PlaceLandsOk | bak/game.cpp:133-138 | a play's lands are placed iff every land child names a tile on the started board |
| BakGame.PlaceLandsKeeps | bak/game.cpp:133-138 | a tile no land child names keeps its terrain |
| BakGame.PlaceLandsLast | bak/game.cpp:133-138 | a tile holds the land of the last child naming it |
| BakGame.PlaceFailurePersists | bak/game.cpp:136 | one off-board land child fails the whole play |
| BakGame.TowersOf | bak/game.cpp:188-195 | two tower locations per random pick |
| BakGame.TowersMembers | bak/game.cpp:188-195 | a location is a tower location iff it is a pick or the mirror of a pick |
| BakGame.SetupTiles | bak/game.cpp:197-210 | the set-up board has 15 times 9 tiles |
| BakGame.SetupTileAt | bak/game.cpp:198-226 | get_tile on the set-up board finds the terrain its layout gives that location |
| BakGame.SetupSymmetric | bak/game.cpp:188-210 | the set-up board is left-right symmetric |
| BakGame.PicksAreTowers | bak/game.cpp:201-208 | every random pick becomes a tower, unless it is one of the two castles |
| BakGame.LoadPlayer | bak/game.cpp:38-43 | a player loads iff its deck and hand read as decks |
| BakGame.LoadedPlayers | bak/game.cpp:38-43 | loaded players number the player nodes |
| BakGame.LoadPlayers | bak/game.cpp:38-43 | the loop loads exactly the players in order, failing at the first bad one |
| BakGame.LoadFailurePersists | bak/game.cpp:41-42 | one player that does not load fails the whole game |
| BakGame.Game.constructor | bak/game.cpp:14-17 | a new game is not started and has no players, no tiles, no messages and no turn |
| BakGame.Game.FromNode | bak/game.cpp:19-44 | the game holds exactly the given size, tiles and players, not yet in play and with no turn |
| BakGame.Load | bak/game.cpp:19-44 | a saved game loads iff its tiles number width times height and every player loads; it then has the saved flag, size, tiles and players and no turn |
| BakGame.Game.AddPlayer | bak/game.cpp:243-247 | a player with the name and empty deck and hand is appended |
| BakGame.Game.DrawHand | bak/game.cpp:143-151 | only that player changes, to the player after drawing |
| BakGame.Game.EndTurn | bak/game.cpp:97-112 | for a valid player: the hand is emptied when discarding, the player draws, the turn passes to the next player cyclically and the game and new-turn notice are queued; otherwise nothing changes |
| BakGame.Game.PassTurn | bak/game.cpp:104-111 | the turn passes to the next player cyclically, and the game and the new turn's notice are queued |
| BakGame.Game.FindInHand | bak/game.cpp:121-127 | the loop finds what the reference scan finds |
| BakGame.Game.PlaceAll | bak/game.cpp:133-138 | succeeds iff every land child is on the board, and the board becomes the lands placed in order |
| BakGame.Game.PlayCard | bak/game.cpp:115-141 | for a valid player holding the card: the first such card and every null card leave the hand, the lands are placed, and the game is queued; the null-card, missing-card and off-board cases fail as the assertions do |
| BakGame.Game.SetupGame | bak/game.cpp:181-211 | the board is started, 15 by 9, and laid out from the random picks |
| BakGame.Game.BuildTowers | bak/game.cpp:188-195 | the loop builds exactly the tower list of the picks |
| BakGame.Game.SetupRow | bak/game.cpp:199-209 | one row appends 15 tiles of the layout and keeps the earlier rows |
| BakGame.Game.HandleSetup | bak/game.cpp:80-87 | the board is set up and the game queued; with at least one player the first player's turn is queued and play starts, otherwise it fails |
| BakGame.Game.HandleDeck | bak/game.cpp:88-94 | for a valid player and a readable deck the player's deck becomes the shuffled cards, the player draws and the game is queued; otherwise nothing changes |
| Text.Count | src/card.cpp:71 | the count is at most the string's length and is 0 exactly when the character does not occur |
| Text.Split | src/string_utils.hpp:29 | every piece split returns is non-empty and has no white space at either end |
| Text.SplitJoin | src/string_utils.hpp:29-32 | splitting the join of non-empty, trimmed items free of the separator gives the items back |
| Text.IntToString | src/unit.cpp:36-39 | the rendering of an integer is non-empty, trimmed and free of commas and spaces, so it survives split |
| Text.AtoiIntToString | src/card.cpp:539-561 | atoi reads back every integer the formatter writes, negative ones included |
| Wml.GetIntOfWritten | src/unit.cpp:24-42 | an integer attribute set with the formatter reads back with get_int, whatever the default |
| Wml.GetIntAt | src/unit.cpp:83-90 | an attribute holding a written integer reads back as that integer, whatever the default |
| Wml.GetBoolOfWritten | src/unit.cpp:29-40 | a flag written as "yes" or "no" reads back with get_bool, whatever the default |
| Text.Smallest | src/terrain.cpp:14-22 | the least key of a non-empty key set, in std::map's string order, is in the set and below every other key |

## Left out

- Sockets, timers and files are left out. This covers accepting and reading connections, sending, HTTP header building, the asynchronous heartbeat timer and writing player records to disk (src/server.cpp). A socket is a number, and what would be sent or written is returned as a value.
- Server lobby commands that relay to game objects: `create_game`, `join_game` and forwarding of game messages. Those bodies drive the game through the network layer. Their bookkeeping (queues, lobby message, `enter_lobby`) is modelled.
- The second socket read in the web server's POST path. A POST whose body did not arrive with the headers is reported as incomplete, not waited for. Reading the requested file is the lookup in the parameter `files`; a missing file is the not-found response.
- TinyXML and simple_wml decoding. Incoming messages are the datatype `Messages.Incoming`. `src/game.hpp` and `src/game.cpp` disagree on the parameter type of `handle_message`; the model follows the definition in `src/game.cpp`.
- Randomness. `rand()` in `setup_game`, the embargo roll, the terrain production value and the `bak` deck shuffle are parameters: functions from an index to a value in the stated range, or the shuffled order itself.
- The computer player's drive loop inside `handle_message` and its movement heuristics (src/ai_player.cpp:72-183). They depend on path finding, which is not part of this model. `AiPlayers.AiPlayer.Play` takes the decision as a parameter and models the gating and the end-turn fallback around it.
- Hex adjacency, radius and distance (tile_logic) are not part of this model. They are function parameters.
- A card's `on_play` formula and formula parsing. Formula expressions are their already-evaluated argument values, and predicates and keys of `filter`, `find`, `map` and `choose` are function parameters. `choose` without a key is random and is left out.
- Floating point: `wave`, and the GL coordinate helpers of the hex geometry.
- Rendering, the GL, thread and cache parts of bak/texture.cpp, and the browser client.
- `graphics::color::set_as_current_color`, `add_to_vector` and `value()` touch GL or depend on the machine's byte order, and are left out. `truncate_to_char` is declared in a header whose body is not part of this model; it is taken to clamp to 0..255.
- `util::split` and `util::join` have declarations only. They are modelled from their declared default flags: empty pieces removed, spaces stripped. `Text.IsSpace` covers space, tab, newline and carriage return, but not vertical tab or form feed.
- `Units.Unit.CanSummon` and `Units.Unit.CanCast` are plain membership predicates with no contract of their own.
- `mods_.erase(i++)` on a vector (src/unit.cpp:273) is undefined behaviour in C++. `Units.Unit.DropExpired` models the evident filter instead.
- The default `unit::modification()` constructor is left out, because it leaves `armor` uninitialised. Modifications are built from nodes or by the `modify_unit` functions.
- The `bak` game's cities, `send_error` and the WML text of its messages are not part of this model. Neither is the dispatch of message types beyond setup, deck, end_turn and play.
- `swap_outgoing_messages` is modelled as returning the queue and emptying it (`Games.Game.SwapOutgoingMessages`). The caller's vector that receives the queue is not modelled separately.
- `XmlWriter`: a node's attributes are a sequence in `std::map` order, and its base elements a field of the node. The wml node interface is not part of this model.
- The preferences' read-only getters are left out: they return a field. So are `save_file_path` and `compiling_tiles`. The phone build is the constructor's flag.
- `Preferences.WideWidthRatio`: covers non-negative heights only. The 32-bit overflow of `height * 16` for heights above 2^27 is not modelled.
- `Texture.NextPot`: excludes `n` above 2^30. Doubling past 2^30 overflows a C++ `int`, which is undefined behaviour.
- `Texture.TableRounds`: the 256-entry table of `map_color_to_16bpp` is written as its 16 runs of equal entries, not as the literal list.
- `GameUtils.TerrainArea`: states that the added hexes all have the start hex's terrain and that the result is closed under same-terrain neighbours. It does not state that every added hex is connected to the start.
- `FormulaBuiltins.Slice`: takes the C++ `num_elements` conversion of each index to `size_t` as reduction modulo 2^64.
- C++ `int` width: sums, damage and armour arithmetic, the resource and upkeep arithmetic, `rgb` components and `transition` are computed on unbounded integers. Their 32-bit overflow, which is undefined behaviour in C++, is not modelled; the exceptions are the lines above that name a bound.
- Variant coercions: a formula value is reduced to the kinds `Values.Value` lists; the `variant` implementation is not part of this model. `as_int` of a non-integer is 0 (`Values.AsInt`), `as_bool` follows `Values.AsBool`, and `as_string` of a non-string is empty. `+` on two values (`Values.Plus`), `sum`, the keys of `choose`, and the `add` mutation of a command (`GameFormulaFunctions.MutatedValue`) read their operands with `as_int`. String, list and map addition, decimal values and any other variant coercion are not modelled.
- Units.Unit.constructor: takes its fields ready-made. The reading of a unit node (src/unit.cpp:82-139) is not modelled: the attribute defaults (a maintenance cost of 1; `has_moved`, `scout` and `can_produce` false), overlays and underlays, the movement-type lookup and its assertion, the `mod` and `ability` children, the `on_` event handlers and the `vars` and `vars_turn` children. Only the key rule is modelled.
- Units.Unit.GameStateChanged: does not run the unit's `game_state_change` event handler (src/unit.cpp:279). Event handlers are formulas, and formula evaluation is not part of this model.
- Games.Game.ResolveCard: does not restate that each new unit holds its prototype's modifications followed by its target hits. `Games.Game.ResolveUnits` and `Games.Game.ResolveMonsters` state that.
- Games.Game.PlayCard and Games.Game.HandlePlay: state which units remain (living ones, old or new) but not their order after the sweep, nor the target hits and the caster tap. `Games.Game.PayAndResolve` states the units' new state before the sweep, and `Games.Game.SweepAndSnapshot` states the sweep, in order.
- WebServer.FirstOccurrence: searches the whole received text. `strstr` stops at the first NUL byte, so a request carrying a NUL before the searched word is not modelled as the C library reads it.
- `Servers.Server`: the lookups `connections_[socket]` in `close_ajax` and `heartbeat` (src/server.cpp:275, 343) create a default connection entry for an unknown socket. The model does not store that entry; `Servers.InfoOf` reads a missing socket as the same default entry, so later lookups agree, but the map `connections` itself differs.

## Findings

| source | as written | input that shows it | evidently intended | confidence | as-written member | corrected member |
|---|---|---|---|---|---|---|
| src/unit.cpp:33-42 | `modification::write` writes the four numbers and `expires_end_of_turn`, but not `expires_on_state_change`, which the reading constructor reads | a modification with `expires_on_state_change` set: written and read back, the flag is false | writing the flag as well, so that reading back gives the same modification | high (not executed) | Units.WriteModCounterexample | Units.WriteModCorrectedRoundTrip |
| src/card.cpp:224 | `backups[loc] = *t` on every pick, so a second pick of the same hex overwrites the backup with the tile the first pick produced | a land card with three lands whose `valid_targets` formula accepts a hex this card has already changed; the player picks the same hex twice, then cancels: the hex is restored to the first land, not to its original terrain | keep the backup of the first pick of each hex, so that cancelling restores the board exactly | high (not executed) | Cards.RepeatedPickCounterexample | Cards.PlayLand |
