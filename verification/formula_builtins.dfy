/** The built-in functions of the formula language (src/formula_function.cpp).
    Arguments are given as the values they evaluate to; the per-item formulas of
    `filter`, `find`, `map` and `choose` are given as functions of the item. */
module FormulaBuiltins {
  import opened Wrappers
  import opened Values
  import CInt

  // ---------------------------------------------------------------- if

  /** An argument expression, reduced to what optimisation looks at: a literal,
      or an expression whose value depends on the variables in scope. */
  datatype Expr = Literal(v: Value) | Variable(name: string)

  function Eval(e: Expr, env: map<string, Value>): Value
  {
    match e
    case Literal(v) => v
    case Variable(n) => if n in env then env[n] else Null
  }

  function EvalArgs(args: seq<Expr>, env: map<string, Value>): (vs: seq<Value>)
    ensures |vs| == |args|
    ensures forall i :: 0 <= i < |args| ==> vs[i] == Eval(args[i], env)
  {
    seq(|args|, i requires 0 <= i < |args| => Eval(args[i], env))
  }

  /** `if(c, a)` / `if(c, a, b)`: the branch the condition picks, null when the
      false branch is missing. */
  function If(args: seq<Value>): (r: Value)
    requires 2 <= |args| <= 3
    ensures AsBool(args[0]) ==> r == args[1]
    ensures !AsBool(args[0]) && |args| == 3 ==> r == args[2]
    ensures !AsBool(args[0]) && |args| == 2 ==> r == Null
  {
    var i := if AsBool(args[0]) then 1 else 2;
    if i >= |args| then Null else args[i]
  }

  /** `if_function::optimize`: with a literal condition the call is replaced by the
      chosen branch (a null literal when it is missing); otherwise it is kept.
      The replacement evaluates to what the call would, under every binding. */
  function IfOptimize(args: seq<Expr>): (r: Option<Expr>)
    requires 2 <= |args| <= 3
    ensures r.Some? <==> args[0].Literal?
    ensures r.Some? ==> forall env :: Eval(r.value, env) == If(EvalArgs(args, env))
  {
    if args[0].Literal? then
      if AsBool(args[0].v) then Some(args[1])
      else if |args| == 3 then Some(args[2])
      else Some(Literal(Null))
    else None
  }

  // ---------------------------------------------------------------- switch

  /** Position `k` of a `switch` call holds a key: odd, and followed by its value. */
  predicate IsKey(args: seq<Value>, k: int)
  {
    k % 2 == 1 && 1 <= k < |args| - 1
  }

  /** `switch(x, k1, v1, k2, v2, ..., [default])`, scanning pairs from position `n`. */
  function SwitchFrom(args: seq<Value>, n: nat): Value
    requires |args| >= 3 && n % 2 == 1
    decreases |args| - n
  {
    if n < |args| - 1 then
      if args[n] == args[0] then args[n + 1] else SwitchFrom(args, n + 2)
    else if |args| % 2 == 0 then args[|args| - 1]
    else Null
  }

  function Switch(args: seq<Value>): Value
    requires |args| >= 3
  {
    SwitchFrom(args, 1)
  }

  /** The value paired with the first key equal to the scrutinee is the result. */
  lemma {:induction false} SwitchFirstMatch(args: seq<Value>, k: int)
    requires |args| >= 3 && IsKey(args, k) && args[k] == args[0]
    requires forall j :: IsKey(args, j) && j < k ==> args[j] != args[0]
    ensures Switch(args) == args[k + 1]
  {
    SwitchFromFirstMatch(args, 1, k);
  }

  lemma {:induction false} SwitchFromFirstMatch(args: seq<Value>, n: nat, k: int)
    requires |args| >= 3 && n % 2 == 1 && n <= k
    requires IsKey(args, k) && args[k] == args[0]
    requires forall j :: IsKey(args, j) && j < k ==> args[j] != args[0]
    ensures SwitchFrom(args, n) == args[k + 1]
    decreases k - n
  {
    if n < k {
      assert IsKey(args, n);
      SwitchFromFirstMatch(args, n + 2, k);
    }
  }

  /** With no matching key the result is the trailing default when the argument
      count is even, and null when it is odd. */
  lemma {:induction false} SwitchNoMatch(args: seq<Value>)
    requires |args| >= 3
    requires forall j :: IsKey(args, j) ==> args[j] != args[0]
    ensures Switch(args) == if |args| % 2 == 0 then args[|args| - 1] else Null
  {
    SwitchFromNoMatch(args, 1);
  }

  lemma {:induction false} SwitchFromNoMatch(args: seq<Value>, n: nat)
    requires |args| >= 3 && n % 2 == 1
    requires forall j :: IsKey(args, j) ==> args[j] != args[0]
    ensures SwitchFrom(args, n) == if |args| % 2 == 0 then args[|args| - 1] else Null
    decreases |args| - n
  {
    if n < |args| - 1 {
      assert IsKey(args, n);
      SwitchFromNoMatch(args, n + 2);
    }
  }

  // ---------------------------------------------------------------- rgb, abs

  function Clamp99(x: int): int
  {
    if x < 0 then 0 else if x > 99 then 99 else x
  }

  /** `rgb(r, g, b)`: each component clamped to 0..99 and packed as three decimal
      digit pairs, so that each pair decodes back to its clamped component. */
  function Rgb(r: int, g: int, b: int): (c: int)
    ensures 0 <= c <= 999999
    ensures c / 10000 == Clamp99(r)
    ensures (c / 100) % 100 == Clamp99(g)
    ensures c % 100 == Clamp99(b)
  {
    10000 * Clamp99(r) + Clamp99(g) * 100 + Clamp99(b)
  }

  /** `abs(n)`. */
  function Abs(n: int): (r: int)
    ensures r >= 0 && (r == n || r == -n)
  {
    if n >= 0 then n else -n
  }

  // ---------------------------------------------------------------- transition

  function Min(a: int, b: int): int { if a <= b then a else b }
  function Max(a: int, b: int): int { if a <= b then b else a }

  /** `transition(begin, val1, end, val2, value)`: 0 outside [begin, end], exactly
      val1 and val2 at the ends, and the truncated linear interpolation in between,
      which never leaves the range spanned by val1 and val2. */
  function Transition(begin: int, val1: int, end: int, val2: int, value: int): (r: int)
    ensures value < begin || value > end ==> r == 0
    ensures begin <= value <= end && value == begin ==> r == val1
    ensures begin < value == end ==> r == val2
    ensures begin < value < end ==> Min(val1, val2) <= r <= Max(val1, val2)
  {
    if value < begin || value > end then 0
    else if value == begin then val1
    else if value == end then val2
    else
      InterpolationBounded(begin, val1, end, val2, value);
      CInt.Div(val1 * (end - value) + val2 * (value - begin), end - begin)
  }

  /** Between the ends the value is the weighted sum `val1 * (end - value) + val2 *
      (value - begin)` divided by `end - begin` with the quotient truncated toward zero:
      it undershoots the exact quotient by less than one for a non-negative sum and
      overshoots it by less than one for a negative sum. */
  lemma TransitionInterpolates(begin: int, val1: int, end: int, val2: int, value: int)
    requires begin < value < end
    ensures var n, d, r := val1 * (end - value) + val2 * (value - begin), end - begin, Transition(begin, val1, end, val2, value);
            (n >= 0 ==> 0 <= n - r * d < d) && (n < 0 ==> -d < n - r * d <= 0)
  {
    var n, d := val1 * (end - value) + val2 * (value - begin), end - begin;
    CInt.DivModProperties(n, d);
    assert Transition(begin, val1, end, val2, value) == CInt.Div(n, d);
  }

  lemma InterpolationBounded(begin: int, val1: int, end: int, val2: int, value: int)
    requires begin < value < end
    ensures Min(val1, val2) <= CInt.Div(val1 * (end - value) + val2 * (value - begin), end - begin) <= Max(val1, val2)
  {
    var a, b, d := end - value, value - begin, end - begin;
    var lo, hi := Min(val1, val2), Max(val1, val2);
    var n := val1 * a + val2 * b;
    MulMonotone(lo, val1, a);
    MulMonotone(lo, val2, b);
    MulMonotone(val1, hi, a);
    MulMonotone(val2, hi, b);
    assert lo * a + lo * b == lo * d;
    assert hi * a + hi * b == hi * d;
    DivBetween(n, d, lo, hi);
  }

  lemma MulMonotone(x: int, y: int, c: int)
    requires x <= y && c >= 0
    ensures x * c <= y * c
  {
  }

  lemma DivBetween(n: int, d: int, lo: int, hi: int)
    requires d > 0 && lo * d <= n <= hi * d
    ensures lo <= CInt.Div(n, d) <= hi
  {
    if n >= 0 {
      FloorBetween(n, d, lo, hi);
    } else {
      FloorBetween(-n, d, -hi, -lo);
    }
  }

  lemma FloorBetween(n: int, d: int, lo: int, hi: int)
    requires d > 0 && n >= 0 && lo * d <= n <= hi * d
    ensures lo <= n / d <= hi
  {
    var q, m := n / d, n % d;
    assert n == q * d + m && 0 <= m < d;
    if q < lo {
      MulMonotone(q + 1, lo, d);
      assert false;
    }
    if q > hi {
      MulMonotone(hi + 1, q, d);
      assert false;
    }
  }

  // ---------------------------------------------------------------- min, max

  /** The integers of a list, each read with `as_int()`. */
  function IntsOf(items: seq<Value>): (r: seq<int>)
    ensures |r| == |items|
  {
    if items == [] then [] else IntsOf(items[..|items| - 1]) + [AsInt(items[|items| - 1])]
  }

  /** The integers `min` and `max` look at in one argument: every element of a
      list, the argument itself when it is an integer, nothing otherwise. */
  function ConsideredIn(v: Value): seq<int>
  {
    match v
    case List(items) => IntsOf(items)
    case Int(i) => [i]
    case _ => []
  }

  lemma ConsideredInCases(v: Value)
    ensures v.List? ==> ConsideredIn(v) == IntsOf(v.items)
    ensures v.Int? ==> ConsideredIn(v) == [v.i]
    ensures !v.List? && !v.Int? ==> ConsideredIn(v) == []
  {
  }

  function Considered(args: seq<Value>): seq<int>
  {
    if args == [] then [] else Considered(args[..|args| - 1]) + ConsideredIn(args[|args| - 1])
  }

  /** The running minimum `min` keeps: 0 before anything was seen. */
  function Least(s: seq<int>): int
  {
    if s == [] then 0
    else if |s| == 1 then s[0]
    else if s[|s| - 1] < Least(s[..|s| - 1]) then s[|s| - 1]
    else Least(s[..|s| - 1])
  }

  /** The running maximum `max` keeps: 0 before anything was seen. */
  function Greatest(s: seq<int>): int
  {
    if s == [] then 0
    else if |s| == 1 then s[0]
    else if s[|s| - 1] > Greatest(s[..|s| - 1]) then s[|s| - 1]
    else Greatest(s[..|s| - 1])
  }

  /** What `min` yields is 0 when nothing was seen, else an element no larger than any other. */
  lemma {:induction false} LeastIsMinimum(s: seq<int>)
    ensures s == [] ==> Least(s) == 0
    ensures s != [] ==> Least(s) in s && forall x :: x in s ==> Least(s) <= x
  {
    if |s| > 1 {
      LeastIsMinimum(s[..|s| - 1]);
      assert s == s[..|s| - 1] + [s[|s| - 1]];
    }
  }

  /** What `max` yields is 0 when nothing was seen, else an element no smaller than any other. */
  lemma {:induction false} GreatestIsMaximum(s: seq<int>)
    ensures s == [] ==> Greatest(s) == 0
    ensures s != [] ==> Greatest(s) in s && forall x :: x in s ==> x <= Greatest(s)
  {
    if |s| > 1 {
      GreatestIsMaximum(s[..|s| - 1]);
      assert s == s[..|s| - 1] + [s[|s| - 1]];
    }
  }

  lemma IntsOfSnoc(items: seq<Value>, m: nat)
    requires m < |items|
    ensures IntsOf(items[..m + 1]) == IntsOf(items[..m]) + [AsInt(items[m])]
  {
    assert items[..m + 1][..m] == items[..m];
  }

  lemma ConsideredSnoc(args: seq<Value>, n: nat)
    requires n < |args|
    ensures Considered(args[..n + 1]) == Considered(args[..n]) + ConsideredIn(args[n])
  {
    assert args[..n + 1][..n] == args[..n];
  }

  lemma LeastSnoc(s: seq<int>, x: int)
    ensures Least(s + [x]) == if s == [] || x < Least(s) then x else Least(s)
  {
    assert (s + [x])[..|s|] == s;
  }

  lemma GreatestSnoc(s: seq<int>, x: int)
    ensures Greatest(s + [x]) == if s == [] || x > Greatest(s) then x else Greatest(s)
  {
    assert (s + [x])[..|s|] == s;
  }

  /** The inner loop of `min` over one list argument: folds the list's integers into
      the running minimum of what was seen before it. */
  method MinOfList(items: seq<Value>, ghost before: seq<int>, found0: bool, res0: int)
    returns (found: bool, res: int)
    requires found0 == (before != []) && res0 == Least(before)
    ensures found == (before + IntsOf(items) != [])
    ensures res == Least(before + IntsOf(items))
  {
    found, res := found0, res0;
    var m := 0;
    ghost var seen := before;
    assert items[..0] == [];
    while m != |items|
      invariant 0 <= m <= |items|
      invariant seen == before + IntsOf(items[..m])
      invariant found == (seen != [])
      invariant res == Least(seen)
    {
      IntsOfSnoc(items, m);
      LeastSnoc(seen, AsInt(items[m]));
      if !found || AsInt(items[m]) < res {
        res := AsInt(items[m]);
        found := true;
      }
      seen := seen + [AsInt(items[m])];
      m := m + 1;
    }
    assert items[..m] == items;
  }

  /** `min(...)`: the least integer among the int arguments and the elements of the
      list arguments, ignoring every other argument, or 0 when there is none. */
  method MinFunction(args: seq<Value>) returns (res: int)
    ensures res == Least(Considered(args))
  {
    var found := false;
    res := 0;
    var n := 0;
    while n != |args|
      invariant 0 <= n <= |args|
      invariant found == (Considered(args[..n]) != [])
      invariant res == Least(Considered(args[..n]))
    {
      ghost var before := Considered(args[..n]);
      var v := args[n];
      ConsideredInCases(v);
      if v.List? {
        found, res := MinOfList(v.items, before, found, res);
      } else if v.Int? {
        LeastSnoc(before, v.i);
        if !found || v.i < res {
          res := v.i;
          found := true;
        }
      } else {
        assert before + ConsideredIn(v) == before;
      }
      ConsideredSnoc(args, n);
      n := n + 1;
    }
    assert args[..n] == args;
  }

  /** The inner loop of `max` over one list argument. */
  method MaxOfList(items: seq<Value>, ghost before: seq<int>, found0: bool, res0: int)
    returns (found: bool, res: int)
    requires found0 == (before != []) && res0 == Greatest(before)
    ensures found == (before + IntsOf(items) != [])
    ensures res == Greatest(before + IntsOf(items))
  {
    found, res := found0, res0;
    var m := 0;
    ghost var seen := before;
    assert items[..0] == [];
    while m != |items|
      invariant 0 <= m <= |items|
      invariant seen == before + IntsOf(items[..m])
      invariant found == (seen != [])
      invariant res == Greatest(seen)
    {
      IntsOfSnoc(items, m);
      GreatestSnoc(seen, AsInt(items[m]));
      if !found || AsInt(items[m]) > res {
        res := AsInt(items[m]);
        found := true;
      }
      seen := seen + [AsInt(items[m])];
      m := m + 1;
    }
    assert items[..m] == items;
  }

  /** `max(...)`: the greatest integer among the int arguments and the elements of
      the list arguments, ignoring every other argument, or 0 when there is none. */
  method MaxFunction(args: seq<Value>) returns (res: int)
    ensures res == Greatest(Considered(args))
  {
    var found := false;
    res := 0;
    var n := 0;
    while n != |args|
      invariant 0 <= n <= |args|
      invariant found == (Considered(args[..n]) != [])
      invariant res == Greatest(Considered(args[..n]))
    {
      ghost var before := Considered(args[..n]);
      var v := args[n];
      ConsideredInCases(v);
      if v.List? {
        found, res := MaxOfList(v.items, before, found, res);
      } else if v.Int? {
        GreatestSnoc(before, v.i);
        if !found || v.i > res {
          res := v.i;
          found := true;
        }
      } else {
        assert before + ConsideredIn(v) == before;
      }
      ConsideredSnoc(args, n);
      n := n + 1;
    }
    assert args[..n] == args;
  }

  /** Arguments that are neither integers nor lists do not affect `min` or `max`. */
  lemma {:induction false} ConsideredSkipsOtherKinds(args: seq<Value>, v: Value)
    requires !v.Int? && !v.List?
    ensures Considered(args + [v]) == Considered(args)
  {
    assert (args + [v])[..|args|] == args;
  }

  // ---------------------------------------------------------------- choose

  /** Position `k` holds the first item whose key is the greatest. */
  predicate FirstGreatestKey(items: seq<Value>, key: Value -> int, k: int)
  {
    0 <= k < |items|
    && (forall j :: 0 <= j < |items| ==> key(items[j]) <= key(items[k]))
    && (forall j :: 0 <= j < k ==> key(items[j]) < key(items[k]))
  }

  /** `choose(items, key)`: the first item with the greatest key, or null for an
      empty list. */
  method Choose(items: seq<Value>, key: Value -> int) returns (r: Value)
    ensures items == [] ==> r == Null
    ensures items != [] ==> exists k :: FirstGreatestKey(items, key, k) && r == items[k]
  {
    var maxIndex := -1;
    var maxValue := 0;
    var n := 0;
    while n != |items|
      invariant 0 <= n <= |items|
      invariant n == 0 <==> maxIndex == -1
      invariant n > 0 ==> FirstGreatestKey(items[..n], key, maxIndex) && maxValue == key(items[maxIndex])
    {
      var val := key(items[n]);
      if maxIndex == -1 || val > maxValue {
        maxIndex := n;
        maxValue := val;
      }
      n := n + 1;
    }
    if maxIndex == -1 {
      r := Null;
    } else {
      assert items[..n] == items;
      r := items[maxIndex];
    }
  }

  // ---------------------------------------------------------------- filter, find, map

  /** The items the predicate keeps, in their original order. */
  function Filtered(items: seq<Value>, keep: Value -> bool): seq<Value>
  {
    if items == [] then []
    else Filtered(items[..|items| - 1], keep)
         + (if keep(items[|items| - 1]) then [items[|items| - 1]] else [])
  }

  /** `filter(items, pred)` (and `filter(items, name, pred)`, whose predicate sees
      the item under a name): the items for which the predicate holds, in order. */
  method Filter(items: seq<Value>, keep: Value -> bool) returns (r: seq<Value>)
    ensures r == Filtered(items, keep)
  {
    r := [];
    var n := 0;
    while n != |items|
      invariant 0 <= n <= |items|
      invariant r == Filtered(items[..n], keep)
    {
      assert items[..n + 1][..n] == items[..n];
      if keep(items[n]) {
        r := r + [items[n]];
      }
      n := n + 1;
    }
    assert items[..n] == items;
  }

  /** An item is kept exactly when it is in the list and the predicate holds of it. */
  lemma {:induction false} FilteredMembers(items: seq<Value>, keep: Value -> bool, x: Value)
    ensures x in Filtered(items, keep) <==> x in items && keep(x)
  {
    if items != [] {
      var init := items[..|items| - 1];
      FilteredMembers(init, keep, x);
      assert items == init + [items[|items| - 1]];
    }
  }

  /** Filtering commutes with concatenation, so kept items stay in their order. */
  lemma {:induction false} FilteredAppend(a: seq<Value>, b: seq<Value>, keep: Value -> bool)
    ensures Filtered(a + b, keep) == Filtered(a, keep) + Filtered(b, keep)
  {
    if b != [] {
      var init := b[..|b| - 1];
      FilteredAppend(a, init, keep);
      assert (a + b)[..|a + b| - 1] == a + init;
    } else {
      assert a + b == a;
    }
  }

  /** `find(items, pred)`: the first item for which the predicate holds, or null. */
  method Find(items: seq<Value>, holds: Value -> bool) returns (r: Value)
    ensures (forall i :: 0 <= i < |items| ==> !holds(items[i])) ==> r == Null
    ensures forall i :: (0 <= i < |items| && holds(items[i])
                         && forall j :: 0 <= j < i ==> !holds(items[j])) ==> r == items[i]
  {
    var n := 0;
    while n != |items|
      invariant 0 <= n <= |items|
      invariant forall j :: 0 <= j < n ==> !holds(items[j])
    {
      if holds(items[n]) {
        return items[n];
      }
      n := n + 1;
    }
    return Null;
  }

  /** `map(items, f)`: f applied to each item, in order. */
  method MapItems(items: seq<Value>, f: Value -> Value) returns (r: seq<Value>)
    ensures |r| == |items|
    ensures forall i :: 0 <= i < |items| ==> r[i] == f(items[i])
  {
    r := [];
    var n := 0;
    while n != |items|
      invariant 0 <= n <= |items|
      invariant |r| == n
      invariant forall i :: 0 <= i < n ==> r[i] == f(items[i])
    {
      r := r + [f(items[n])];
      n := n + 1;
    }
  }

  // ---------------------------------------------------------------- sum, range

  function Total(s: seq<int>): int
  {
    if s == [] then 0 else Total(s[..|s| - 1]) + s[|s| - 1]
  }

  /** `sum(items[, init])`: the items added one by one onto the initial value
      (0 when it is missing); with no items the initial value comes back as it is. */
  method Sum(items: seq<Value>, init: Option<Value>) returns (r: Value)
    ensures items == [] ==> r == (if init.Some? then init.value else Int(0))
    ensures items != [] ==> r == Int((if init.Some? then AsInt(init.value) else 0) + Total(IntsOf(items)))
  {
    r := Int(0);
    if init.Some? {
      r := init.value;
    }
    r := AddOnto(r, items);
  }

  /** The loop of `sum`: each item added onto the running value in turn. */
  method AddOnto(r0: Value, items: seq<Value>) returns (r: Value)
    ensures items == [] ==> r == r0
    ensures items != [] ==> r == Int(AsInt(r0) + Total(IntsOf(items)))
  {
    r := r0;
    ghost var total := 0;
    var n := 0;
    while n != |items|
      invariant 0 <= n <= |items|
      invariant total == Total(IntsOf(items[..n]))
      invariant r == if n == 0 then r0 else Int(AsInt(r0) + total)
    {
      assert Total(IntsOf(items[..n + 1])) == total + AsInt(items[n]) by {
        IntsOfSnoc(items, n);
        TotalSnoc(IntsOf(items[..n]), AsInt(items[n]));
      }
      r := Plus(r, items[n]);
      total := total + AsInt(items[n]);
      n := n + 1;
    }
    assert items[..n] == items;
  }

  lemma TotalSnoc(s: seq<int>, x: int)
    ensures Total(s + [x]) == Total(s) + x
  {
    assert (s + [x])[..|s|] == s;
  }

  /** `range(n)`: the integers 0..n-1, empty when n is not positive. */
  method Range(n: int) returns (r: seq<Value>)
    ensures |r| == (if n > 0 then n else 0)
    ensures forall i :: 0 <= i < |r| ==> r[i] == Int(i)
  {
    r := [];
    if n > 0 {
      var k := 0;
      while k < n
        invariant 0 <= k <= n
        invariant |r| == k
        invariant forall i :: 0 <= i < k ==> r[i] == Int(i)
      {
        r := r + [Int(k)];
        k := k + 1;
      }
    }
  }

  /** The sum of what `range(n)` yields is n(n-1)/2. */
  lemma {:induction false} SumOfRange(r: seq<Value>)
    requires forall i :: 0 <= i < |r| ==> r[i] == Int(i)
    ensures Total(IntsOf(r)) == |r| * (|r| - 1) / 2
  {
    if r != [] {
      var k := |r| - 1;
      var init := r[..k];
      SumOfRange(init);
      assert IntsOf(r) == IntsOf(init) + [k];
      assert IntsOf(r)[..k] == IntsOf(init);
      assert Total(IntsOf(r)) == Total(IntsOf(init)) + k;
      assert k * (k - 1) / 2 + k == (k + 1) * k / 2 by {
        assert (k + 1) * k == k * (k - 1) + 2 * k;
      }
    }
  }

  // ---------------------------------------------------------------- head, size, slice

  /** `head(items)`: the first item; an empty list fails the list's bounds check. */
  function Head(items: seq<Value>): (r: Result<Value>)
    ensures r.Ok? <==> items != []
    ensures r.Ok? ==> r.value == items[0]
  {
    if items == [] then Fail("index out of range") else Ok(items[0])
  }

  /** `size(items)`. */
  function Size(items: seq<Value>): int
  {
    |items|
  }

  /** The conversion of a C++ `int` to the unsigned 64-bit `size_t` that the remainder
      in `slice` takes place in: a negative value wraps round modulo 2^64. */
  function SizeT(i: int): (u: int)
    ensures 0 <= u < 0x1_0000_0000_0000_0000
    ensures 0 <= i < 0x1_0000_0000_0000_0000 ==> u == i
  {
    i % 0x1_0000_0000_0000_0000
  }

  /** `slice(list, b, e)`: null for an empty list; otherwise both indices are
      converted to `size_t` (the type of the list's element count) and reduced modulo
      the length, and the items [b', e') are returned when e' >= b', null otherwise. */
  function SliceSpec(list: seq<Value>, b: int, e: int): Option<seq<Value>>
  {
    if |list| == 0 then None
    else
      var bi, ei := SizeT(b) % |list|, SizeT(e) % |list|;
      if ei < bi then None else Some(list[bi..ei])
  }

  /** `slice` as the source runs it: reduce both indices, then push the items from the
      begin index up to the end index one by one. */
  method Slice(list: seq<Value>, b: int, e: int) returns (r: Option<seq<Value>>)
    ensures r == SliceSpec(list, b, e)
  {
    if |list| == 0 {
      return None;
    }
    var bi := SizeT(b) % |list|;
    var ei := SizeT(e) % |list|;
    if ei >= bi {
      var result := [];
      var i := bi;
      while i != ei
        invariant bi <= i <= ei
        invariant result == list[bi..i]
      {
        result := result + [list[i]];
        i := i + 1;
      }
      return Some(result);
    }
    return None;
  }

  /** For indices in the range of `int` that are not negative the slice is the stretch
      between the two indices reduced modulo the length; in particular it always lies
      within the list. */
  lemma SliceOfNonNegativeIndices(list: seq<Value>, b: int, e: int)
    requires |list| > 0 && 0 <= b <= 0x7fff_ffff && 0 <= e <= 0x7fff_ffff
    ensures SliceSpec(list, b, e)
            == if e % |list| >= b % |list| then Some(list[b % |list|..e % |list|]) else None
  {
    assert SizeT(b) == b && SizeT(e) == e;
  }

  /** `slice(l, 0, size(l))` is empty: the end index wraps round to 0. */
  lemma SliceWholeListIsEmpty(list: seq<Value>)
    requires 0 < |list| <= 0x7fff_ffff
    ensures SliceSpec(list, 0, Size(list)) == Some([])
  {
    assert SizeT(Size(list)) == |list|;
    assert SizeT(Size(list)) % |list| == 0;
  }

  /** A negative index does not count from the end of the list: on a list of three
      items, -1 becomes 2^64 - 1 and then 0, so `slice(l, -1, 2)` is the first two
      items rather than nothing. */
  lemma SliceNegativeIndexWraps()
    ensures SliceSpec([Int(7), Int(8), Int(9)], -1, 2) == Some([Int(7), Int(8)])
  {
    assert SizeT(-1) == 0xffff_ffff_ffff_ffff;
    assert SizeT(-1) % 3 == 0 && SizeT(2) % 3 == 2;
    assert [Int(7), Int(8), Int(9)][0..2] == [Int(7), Int(8)];
  }
}
