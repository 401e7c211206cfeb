/** `formula_variable_storage` (src/formula_variable_storage.cpp): named formula
    variables kept in a vector of values, with a map from each name to its slot. */
module VariableStorage {
  import opened Values
  import Text

  /** One entry of `get_inputs`: a variable name and its access mode. */
  datatype Access = ReadOnly | ReadWrite
  datatype FormulaInput = FormulaInput(name: string, access: Access)

  predicate Distinct<T(==)>(s: seq<T>)
  {
    forall i, j :: 0 <= i < j < |s| ==> s[i] != s[j]
  }

  /** A sequence without repeats has as many distinct elements as it is long. */
  lemma {:induction false} DistinctCardinality<T>(s: seq<T>)
    requires Distinct(s)
    ensures |set x | x in s| == |s|
  {
    if s != [] {
      var init := s[..|s| - 1];
      DistinctCardinality(init);
      assert (set x | x in s) == (set x | x in init) + {s[|s| - 1]};
      assert s[|s| - 1] !in init;
    }
  }

  /** The name-to-value map a slot map and a value vector stand for. */
  ghost function ContentsOf(slots: map<string, nat>, values: seq<Value>): map<string, Value>
    requires forall k :: k in slots ==> slots[k] < |values|
  {
    map k | k in slots :: values[slots[k]]
  }

  /** Overwriting the slot of a name changes that name's value only, when no other name
      shares the slot. */
  lemma ContentsOverwrite(slots: map<string, nat>, values: seq<Value>, key: string, value: Value)
    requires forall k :: k in slots ==> slots[k] < |values|
    requires key in slots && forall k :: k in slots && slots[k] == slots[key] ==> k == key
    ensures ContentsOf(slots, values[slots[key] := value]) == ContentsOf(slots, values)[key := value]
  {
  }

  /** Appending a value for a new name adds that name only. */
  lemma ContentsAppend(slots: map<string, nat>, values: seq<Value>, key: string, value: Value)
    requires forall k :: k in slots ==> slots[k] < |values|
    requires key !in slots
    ensures ContentsOf(slots[key := |values|], values + [value]) == ContentsOf(slots, values)[key := value]
  {
  }

  class Storage {
    var slots: map<string, nat>   // strings_to_values_
    var values: seq<Value>        // values_
    ghost var names: seq<string>  // names[i] is the key whose slot is i

    /** The key-to-slot map is a bijection onto 0 .. |values| - 1. */
    ghost predicate Valid()
      reads this
    {
      |names| == |values|
      && Distinct(names)
      && (forall i :: 0 <= i < |names| ==> names[i] in slots && slots[names[i]] == i)
      && (forall k :: k in slots ==> slots[k] < |names| && names[slots[k]] == k)
    }

    /** The variables as a name-to-value map. */
    ghost function Contents(): map<string, Value>
      reads this
      requires Valid()
    {
      ContentsOf(slots, values)
    }

    constructor ()
      ensures Valid() && Contents() == map[] && values == []
    {
      slots, values, names := map[], [], [];
    }

    /** There are exactly as many names as slots. */
    lemma SlotCount()
      requires Valid()
      ensures |slots.Keys| == |values|
    {
      DistinctCardinality(names);
      assert slots.Keys == set x | x in names;
    }

    /** `add(key, value)`: an existing name has its slot overwritten and nothing else
        changes; a new name gets the next slot and the value is appended. */
    method Add(key: string, value: Value)
      requires Valid()
      modifies this
      ensures Valid()
      ensures key in old(slots) ==> slots == old(slots) && values == old(values)[old(slots)[key] := value]
      ensures key !in old(slots) ==> slots == old(slots)[key := |old(values)|] && values == old(values) + [value]
      ensures Contents() == old(Contents())[key := value]
    {
      if key in slots {
        ContentsOverwrite(slots, values, key, value);
        values := values[slots[key] := value];
      } else {
        ContentsAppend(slots, values, key, value);
        slots := slots[key := |values|];
        values := values + [value];
        names := names + [key];
      }
    }

    /** Adds every entry of `m`, so its names take `m`'s values and the other
        names keep theirs. */
    method AddAll(m: map<string, Value>)
      requires Valid()
      modifies this
      ensures Valid()
      ensures Contents() == old(Contents()) + m
    {
      ghost var mine := Contents();
      var todo := m.Keys;
      ghost var done: set<string> := {};
      while todo != {}
        invariant Valid()
        invariant todo <= m.Keys && done == m.Keys - todo
        invariant Contents() == mine + Restrict(m, done)
        decreases todo
      {
        var k :| k in todo;
        Add(k, m[k]);
        RestrictStep(mine, m, done, k);
        todo := todo - {k};
        done := done + {k};
      }
      assert Restrict(m, done) == m;
    }

    /** The constructor from a map: every entry is added. */
    constructor FromMap(m: map<string, Value>)
      ensures Valid() && Contents() == m
    {
      slots, values, names := map[], [], [];
      new;
      AddAll(m);
    }

    /** `add(storage)`: every variable of `other` is added, so shared names take
        `other`'s value and the other names of this storage are kept. */
    method Merge(other: Storage)
      requires Valid() && other.Valid()
      modifies this
      ensures Valid()
      ensures Contents() == old(Contents()) + old(other.Contents())
    {
      var theirs := map k | k in other.slots :: other.values[other.slots[k]];
      AddAll(theirs);
    }

    /** `get_value`: the variable's value, or null for an unknown name. */
    function GetValue(key: string): (r: Value)
      reads this
      requires Valid()
      ensures key in Contents() ==> r == Contents()[key]
      ensures key !in Contents() ==> r == Null
    {
      if key in slots then values[slots[key]] else Null
    }

    /** `get_value_by_slot`: reading a name's slot gives that name's value. */
    function GetValueBySlot(slot: nat): (r: Value)
      reads this
      requires Valid() && slot < |values|
      ensures r == Contents()[names[slot]]
    {
      values[slot]
    }

    /** `set_value` is `add`. */
    method SetValue(key: string, value: Value)
      requires Valid()
      modifies this
      ensures Valid() && slots.Keys == old(slots.Keys) + {key}
      ensures Contents() == old(Contents())[key := value]
    {
      Add(key, value);
    }

    /** `set_value_by_slot`: only the variable in that slot changes. */
    method SetValueBySlot(slot: nat, value: Value)
      requires Valid() && slot < |values|
      modifies this
      ensures Valid() && slots == old(slots) && |values| == |old(values)|
      ensures Contents() == old(Contents())[names[slot] := value]
    {
      values := values[slot := value];
    }

    /** `equal_to(m)`: the storage holds exactly the names of `m`, each with `m`'s value. */
    method EqualTo(m: map<string, Value>) returns (r: bool)
      requires Valid()
      ensures r <==> Contents() == m
    {
      SlotCount();
      assert Contents().Keys == slots.Keys;
      if |m| != |slots| {
        assert |m.Keys| != |slots.Keys|;
        return false;
      }
      var todo := slots.Keys;
      while todo != {}
        invariant todo <= slots.Keys
        invariant forall k :: k in slots.Keys - todo ==> k in m && m[k] == values[slots[k]]
        decreases todo
      {
        var k :| k in todo;
        if k !in m || m[k] != values[slots[k]] {
          return false;
        }
        todo := todo - {k};
      }
      assert slots.Keys <= m.Keys;
      SubsetOfSameSize(slots.Keys, m.Keys);
      return true;
    }

    /** `get_inputs`: one read-write input per name, in increasing name order (the
        order in which `std::map` visits its keys). */
    method GetInputs() returns (inputs: seq<FormulaInput>)
      requires Valid()
      ensures |inputs| == |slots|
      ensures forall x :: x in inputs ==> x.access == ReadWrite && x.name in slots
      ensures forall k :: k in slots ==> FormulaInput(k, ReadWrite) in inputs
      ensures forall i, j :: 0 <= i < j < |inputs| ==> Text.Less(inputs[i].name, inputs[j].name)
      ensures forall i, j :: 0 <= i < j < |inputs| ==> inputs[i].name != inputs[j].name
    {
      inputs := [];
      var todo := slots.Keys;
      while todo != {}
        invariant todo <= slots.Keys
        invariant |inputs| + |todo| == |slots|
        invariant forall x :: x in inputs ==> x.access == ReadWrite && x.name in slots.Keys - todo
        invariant forall k :: k in slots.Keys - todo ==> FormulaInput(k, ReadWrite) in inputs
        invariant forall i, j :: 0 <= i < j < |inputs| ==> Text.Less(inputs[i].name, inputs[j].name)
        invariant forall i, k :: 0 <= i < |inputs| && k in todo ==> Text.Less(inputs[i].name, k)
        decreases todo
      {
        var k := Text.Smallest(todo);
        inputs := inputs + [FormulaInput(k, ReadWrite)];
        todo := todo - {k};
      }
      forall i, j | 0 <= i < j < |inputs|
        ensures inputs[i].name != inputs[j].name
      {
        Text.LessIrreflexive(inputs[i].name);
      }
    }
  }

  /** The entries of `m` whose names are in `s`. */
  ghost function Restrict(m: map<string, Value>, s: set<string>): map<string, Value>
  {
    map k | k in s && k in m :: m[k]
  }

  lemma RestrictStep(mine: map<string, Value>, m: map<string, Value>, done: set<string>, k: string)
    requires k in m
    ensures (mine + Restrict(m, done))[k := m[k]] == mine + Restrict(m, done + {k})
  {
  }

  lemma SubsetOfSameSize<T>(a: set<T>, b: set<T>)
    requires a <= b && |a| == |b|
    ensures a == b
  {
    assert b == a + (b - a);
    assert |b| == |a| + |b - a|;
  }
}
