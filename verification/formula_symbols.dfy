/** Function-name resolution of the formula language (src/formula_function.cpp):
    user-defined function tables chained to backups, the table used while a
    recursive function is being defined, the built-in table and the argument
    count check every built-in call makes when it is constructed. */
module FormulaSymbols {
  import opened Wrappers

  /** A user-defined formula function: its name, the formula (an opaque handle;
      `None` for the not-yet-known body of a recursive stub) and its parameters. */
  datatype FormulaFunction = FormulaFunction(name: string, formula: Option<nat>, params: seq<string>)

  /** What resolving a call by name yields. */
  datatype Created =
    | NoFunction                     // the null expression pointer
    | CustomCall(def: FormulaFunction)
    | StubCall(name: string, stub: nat)   // index of the stub in the recursive table
    | BuiltinCall(name: string)

  /** A function symbol table together with the chain of backups behind it. */
  datatype TableView = TableView(custom: map<string, FormulaFunction>, backup: Option<TableView>)

  /** `generate_function_expression`: a call of a user-defined function is built with
      its parameter count as both the minimum and the maximum argument count, so any
      other count throws. */
  function Generate(d: FormulaFunction, nargs: nat): (r: Result<Created>)
    ensures r.Ok? <==> nargs == |d.params|
    ensures r.Ok? ==> r.value == CustomCall(d)
  {
    match CheckArity(nargs, |d.params|, |d.params|)
    case Ok(_) => Ok(CustomCall(d))
    case Fail(why) => Fail(why)
  }

  /** `function_symbol_table::create_function`: this table's own functions first,
      then the backup's, and nothing when neither has the name. */
  function Resolve(t: TableView, fn: string, nargs: nat): Result<Created>
  {
    if fn in t.custom then Generate(t.custom[fn], nargs)
    else if t.backup.Some? then Resolve(t.backup.value, fn, nargs)
    else Ok(NoFunction)
  }

  /** The custom maps of a table and its backups, nearest first. */
  function Chain(t: TableView): (c: seq<map<string, FormulaFunction>>)
    ensures |c| >= 1 && c[0] == t.custom
  {
    [t.custom] + if t.backup.Some? then Chain(t.backup.value) else []
  }

  /** Position `k` of the chain is the nearest table that defines `fn`. */
  predicate NearestDefining(c: seq<map<string, FormulaFunction>>, fn: string, k: int)
  {
    0 <= k < |c| && fn in c[k] && forall j :: 0 <= j < k ==> fn !in c[j]
  }

  /** Resolution finds the definition in the nearest table of the chain that has the
      name, and the call is built exactly when it passes as many arguments as that
      definition has parameters. */
  lemma {:induction false} ResolveNearest(t: TableView, fn: string, nargs: nat, k: int)
    requires NearestDefining(Chain(t), fn, k)
    ensures Resolve(t, fn, nargs).Ok? <==> nargs == |Chain(t)[k][fn].params|
    ensures Resolve(t, fn, nargs).Ok? ==> Resolve(t, fn, nargs).value == CustomCall(Chain(t)[k][fn])
  {
    if k > 0 {
      var c, tail := Chain(t), Chain(t.backup.value);
      assert c == [t.custom] + tail;
      assert NearestDefining(tail, fn, k - 1) by {
        forall j | 0 <= j < k - 1 ensures fn !in tail[j] { assert c[j + 1] == tail[j]; }
      }
      ResolveNearest(t.backup.value, fn, nargs, k - 1);
    }
  }

  /** Resolution yields nothing when no table of the chain has the name. */
  lemma {:induction false} ResolveMissing(t: TableView, fn: string, nargs: nat)
    requires forall k :: 0 <= k < |Chain(t)| ==> fn !in Chain(t)[k]
    ensures Resolve(t, fn, nargs) == Ok(NoFunction)
  {
    assert fn !in Chain(t)[0];
    if t.backup.Some? {
      var c, tail := Chain(t), Chain(t.backup.value);
      assert c == [t.custom] + tail;
      forall k | 0 <= k < |tail| ensures fn !in tail[k] { assert c[k + 1] == tail[k]; }
      ResolveMissing(t.backup.value, fn, nargs);
    }
  }

  /** A function symbol table whose own map `add_formula_function` updates. */
  class FunctionSymbolTable {
    var custom: map<string, FormulaFunction>
    const backup: Option<TableView>

    constructor (backup: Option<TableView>)
      ensures custom == map[] && this.backup == backup
    {
      custom := map[];
      this.backup := backup;
    }

    function View(): TableView
      reads this
    {
      TableView(custom, backup)
    }

    /** `add_formula_function`: (re)defines one name, leaving the others alone. */
    method AddFormulaFunction(name: string, formula: nat, params: seq<string>)
      modifies this
      ensures custom == old(custom)[name := FormulaFunction(name, Some(formula), params)]
    {
      custom := custom[name := FormulaFunction(name, Some(formula), params)];
    }

    /** `create_function`: after a definition is added, the table resolves its name
        to it, whatever the backups define, and the call fails on a wrong argument count. */
    function CreateFunction(fn: string, nargs: nat): (r: Result<Created>)
      reads this
      ensures fn in custom ==> (r.Ok? <==> nargs == |custom[fn].params|)
      ensures fn in custom && r.Ok? ==> r.value == CustomCall(custom[fn])
      ensures fn !in custom && backup.None? ==> r == Ok(NoFunction)
      ensures fn !in custom && backup.Some? ==> r == Resolve(backup.value, fn, nargs)
    {
      Resolve(View(), fn, nargs)
    }
  }

  /** `recursive_function_symbol_table`: while a function is being defined, every
      call to its own name becomes a stub without a formula; the stubs are
      back-patched once the formula exists. */
  class RecursiveSymbolTable {
    const name: string
    const params: seq<string>
    const backup: Option<TableView>
    var stubs: seq<Option<nat>>   // the formula each generated stub call will run

    constructor (name: string, params: seq<string>, backup: Option<TableView>)
      ensures this.name == name && this.params == params && this.backup == backup
      ensures stubs == []
    {
      this.name := name;
      this.params := params;
      this.backup := backup;
      stubs := [];
    }

    /** `create_function`: a call to the function being defined becomes a new stub,
        built with the parameter count as its exact argument count; a call with
        another count throws before any stub is recorded. */
    method CreateFunction(fn: string, nargs: nat) returns (r: Result<Created>)
      modifies this
      ensures fn == name && nargs == |params| ==>
                r == Ok(StubCall(name, |old(stubs)|)) && stubs == old(stubs) + [None]
      ensures fn == name && nargs != |params| ==> r.Fail? && stubs == old(stubs)
      ensures fn != name ==> stubs == old(stubs)
      ensures fn != name && backup.Some? ==> r == Resolve(backup.value, fn, nargs)
      ensures fn != name && backup.None? ==> r == Ok(NoFunction)
    {
      if fn == name {
        match CheckArity(nargs, |params|, |params|)
        case Ok(_) =>
          r := Ok(StubCall(name, |stubs|));
          stubs := stubs + [None];
        case Fail(why) =>
          r := Fail(why);
      } else if backup.Some? {
        r := Resolve(backup.value, fn, nargs);
      } else {
        r := Ok(NoFunction);
      }
    }

    /** `resolve_recursive_calls`: every stub generated so far now runs `f`. */
    method ResolveRecursiveCalls(f: nat)
      modifies this
      ensures |stubs| == |old(stubs)|
      ensures forall i :: 0 <= i < |stubs| ==> stubs[i] == Some(f)
    {
      var i := 0;
      while i < |stubs|
        invariant 0 <= i <= |stubs| == |old(stubs)|
        invariant forall j :: 0 <= j < i ==> stubs[j] == Some(f)
      {
        stubs := stubs[i := Some(f)];
        i := i + 1;
      }
    }
  }

  /** The argument-count bounds of each built-in, as (minimum, maximum), where a
      negative bound is no bound. */
  const Builtins: map<string, (int, int)> := map[
    "dir" := (1, 1), "if" := (2, 3), "switch" := (3, -1), "query" := (2, 2),
    "abs" := (1, 1), "min" := (1, -1), "max" := (1, -1), "choose" := (1, 2),
    "wave" := (1, 1), "sort" := (1, 2), "filter" := (2, 3), "mapping" := (-1, -1),
    "find" := (2, 3), "transform" := (2, 2), "map" := (2, 3), "sum" := (1, 2),
    "range" := (1, 1), "head" := (1, 1), "rgb" := (3, 3), "transition" := (5, 5),
    "color_transition" := (5, -1), "size" := (1, 1), "slice" := (3, 3),
    "str" := (1, 1), "strstr" := (2, 2), "null" := (0, 0), "refcount" := (1, 1),
    "keys" := (1, 1), "values" := (1, 1), "deserialize" := (1, 1)
  ]

  /** `function_expression`'s constructor: throws when the count is below a
      non-negative minimum or above a non-negative maximum. */
  function CheckArity(nargs: nat, minArgs: int, maxArgs: int): (r: Result<()>)
    ensures r.Ok? <==> (minArgs < 0 || nargs >= minArgs) && (maxArgs < 0 || nargs <= maxArgs)
  {
    if minArgs >= 0 && nargs < minArgs then Fail("incorrect number of arguments")
    else if maxArgs >= 0 && nargs > maxArgs then Fail("incorrect number of arguments")
    else Ok(())
  }

  /** The free `create_function`: what the symbol table supplied, if anything (its
      throw passing through); otherwise the built-in of that name, constructed with the
      argument count; otherwise nothing. */
  function CreateFunction(fromSymbols: Result<Created>, fn: string, nargs: nat): (r: Result<Created>)
    ensures fromSymbols.Fail? ==> r == fromSymbols
    ensures fromSymbols.Ok? && fromSymbols.value != NoFunction ==> r == fromSymbols
    ensures fromSymbols == Ok(NoFunction) && fn !in Builtins ==> r == Ok(NoFunction)
    ensures fromSymbols == Ok(NoFunction) && fn in Builtins ==>
              (r == Ok(BuiltinCall(fn)) <==> CheckArity(nargs, Builtins[fn].0, Builtins[fn].1).Ok?)
    ensures r.Fail? ==> fromSymbols.Fail? || fn in Builtins
  {
    if fromSymbols != Ok(NoFunction) then fromSymbols
    else if fn !in Builtins then Ok(NoFunction)
    else
      var (lo, hi) := Builtins[fn];
      match CheckArity(nargs, lo, hi)
      case Ok(_) => Ok(BuiltinCall(fn))
      case Fail(why) => Fail(why)
  }

  /** A user-defined function shadows the built-in of the same name: a call with its
      parameter count reaches it, and a call with any other count fails even where the
      built-in would accept that count. */
  lemma CustomShadowsBuiltin(t: TableView, fn: string, nargs: nat)
    requires fn in t.custom && fn in Builtins
    ensures nargs == |t.custom[fn].params| ==>
              CreateFunction(Resolve(t, fn, nargs), fn, nargs) == Ok(CustomCall(t.custom[fn]))
    ensures nargs != |t.custom[fn].params| ==> CreateFunction(Resolve(t, fn, nargs), fn, nargs).Fail?
  {
  }

  /** A built-in's count check accepts exactly the counts within its bounds. */
  lemma {:induction false} BuiltinArity(nargs: nat)
    ensures CreateFunction(Ok(NoFunction), "if", nargs).Ok? <==> 2 <= nargs <= 3
    ensures CreateFunction(Ok(NoFunction), "switch", nargs).Ok? <==> nargs >= 3
    ensures CreateFunction(Ok(NoFunction), "mapping", nargs).Ok?
    ensures CreateFunction(Ok(NoFunction), "null", nargs).Ok? <==> nargs == 0
  {
    assert "if" in Builtins && Builtins["if"] == (2, 3);
    assert "switch" in Builtins && Builtins["switch"] == (3, -1);
    assert "mapping" in Builtins && Builtins["mapping"] == (-1, -1);
    assert "null" in Builtins && Builtins["null"] == (0, 0);
  }

  /** The functions whose arguments must not be optimised. */
  const NoOptimization: seq<string> := ["choose", "filter", "find", "map"]

  /** `optimize_function_arguments`: false exactly for choose, filter, find and map. */
  method OptimizeFunctionArguments(fn: string) returns (r: bool)
    ensures r <==> fn != "choose" && fn != "filter" && fn != "find" && fn != "map"
  {
    var n := 0;
    while n < |NoOptimization|
      invariant 0 <= n <= |NoOptimization|
      invariant forall j :: 0 <= j < n ==> NoOptimization[j] != fn
    {
      if NoOptimization[n] == fn {
        return false;
      }
      n := n + 1;
    }
    assert NoOptimization[0] != fn && NoOptimization[1] != fn;
    assert NoOptimization[2] != fn && NoOptimization[3] != fn;
    return true;
  }
}
