/** Units (src/unit.cpp, src/unit.hpp): a unit's base stats and the temporary
    modifications layered on them, the turn and game-state expiry of those
    modifications, and the unit's formula-visible values. */
module Units {
  import opened Wrappers
  import Text
  import Wml
  import opened Values
  import opened HexGeometry
  import Resource
  import opened UnitAbility

  // ---------------------------------------------------------------- modifications

  /** `unit::modification`: deltas to life, armour and move, and when they expire. */
  datatype Modification = Modification(id: int, life: int, armor: int, move: int,
                                       expiresEndOfTurn: bool, expiresOnStateChange: bool)

  /** `modification(node)`: each attribute read from a `mod` node, absent ones 0 or false. */
  function ReadMod(attrs: Wml.Attrs): Modification
  {
    Modification(Wml.GetInt(attrs, "id", 0), Wml.GetInt(attrs, "life", 0),
                 Wml.GetInt(attrs, "armor", 0), Wml.GetInt(attrs, "move", 0),
                 Wml.GetBool(attrs, "expires_end_of_turn", false),
                 Wml.GetBool(attrs, "expires_on_state_change", false))
  }

  /** `modification::write` as written: the four numbers and the end-of-turn flag; the
      state-change flag is not written. */
  function WriteMod(m: Modification): Wml.Attrs
  {
    map["id" := Text.IntToString(m.id), "life" := Text.IntToString(m.life),
        "armor" := Text.IntToString(m.armor), "move" := Text.IntToString(m.move),
        "expires_end_of_turn" := Wml.YesNo(m.expiresEndOfTurn)]
  }

  /** What `WriteMod` loses: reading it back clears the state-change flag and keeps
      everything else. */
  lemma WriteModLosesStateFlag(m: Modification)
    ensures ReadMod(WriteMod(m)) == m.(expiresOnStateChange := false)
  {
    var a := WriteMod(m);
    Wml.GetIntAt(a, "id", m.id, 0);
    Wml.GetIntAt(a, "life", m.life, 0);
    Wml.GetIntAt(a, "armor", m.armor, 0);
    Wml.GetIntAt(a, "move", m.move, 0);
    assert a["expires_end_of_turn"] == Wml.YesNo(m.expiresEndOfTurn);
    assert "expires_on_state_change" !in a;
  }

  /** A modification that expires on a change of game state does not survive being
      written and read back. */
  lemma WriteModCounterexample()
    ensures var m := Modification(0, 0, 0, 0, false, true);
      ReadMod(WriteMod(m)) != m
  {
    WriteModLosesStateFlag(Modification(0, 0, 0, 0, false, true));
  }

  /** `modification::write` with the state-change flag written as well. */
  function WriteModCorrected(m: Modification): Wml.Attrs
  {
    WriteMod(m)["expires_on_state_change" := Wml.YesNo(m.expiresOnStateChange)]
  }

  /** Writing with the flag and reading back gives the modification unchanged. */
  lemma WriteModCorrectedRoundTrip(m: Modification)
    ensures ReadMod(WriteModCorrected(m)) == m
  {
    WriteModLosesStateFlag(m);
    var a := WriteModCorrected(m);
    assert forall k :: k != "expires_on_state_change" && k in WriteMod(m) ==> a[k] == WriteMod(m)[k];
  }

  /** The stat a modification changes. */
  datatype Stat = Life | Armor | Move

  function Delta(m: Modification, s: Stat): int
  {
    match s
    case Life => m.life
    case Armor => m.armor
    case Move => m.move
  }

  /** The sum of the modifications' deltas to one stat. */
  function Total(mods: seq<Modification>, s: Stat): int
  {
    if mods == [] then 0 else Total(mods[..|mods| - 1], s) + Delta(mods[|mods| - 1], s)
  }

  /** The deltas of two runs of modifications add up. */
  lemma {:induction false} TotalAppend(a: seq<Modification>, b: seq<Modification>, s: Stat)
    ensures Total(a + b, s) == Total(a, s) + Total(b, s)
  {
    if b != [] {
      var last := |b| - 1;
      var ab := a + b;
      assert ab[..|ab| - 1] == a + b[..last];
      assert ab[|ab| - 1] == b[last];
      assert Total(ab, s) == Total(a + b[..last], s) + Delta(b[last], s);
      TotalAppend(a, b[..last], s);
    } else {
      assert a + b == a;
    }
  }

  /** When a modification lapses. */
  datatype Expiry = EndOfTurn | StateChange

  predicate Expires(m: Modification, e: Expiry)
  {
    match e
    case EndOfTurn => m.expiresEndOfTurn
    case StateChange => m.expiresOnStateChange
  }

  /** The modifications that do not lapse at `e`, in their order. */
  function Surviving(mods: seq<Modification>, e: Expiry): seq<Modification>
  {
    if mods == [] then []
    else
      var last := mods[|mods| - 1];
      Surviving(mods[..|mods| - 1], e) + (if Expires(last, e) then [] else [last])
  }

  /** Exactly the modifications that do not lapse survive. */
  lemma {:induction false} SurvivingMembers(mods: seq<Modification>, e: Expiry, m: Modification)
    ensures m in Surviving(mods, e) <==> m in mods && !Expires(m, e)
  {
    if mods != [] {
      var init := mods[..|mods| - 1];
      SurvivingMembers(init, e, m);
      assert mods == init + [mods[|mods| - 1]];
    }
  }

  /** Filtering keeps order: the survivors of two runs are the survivors of each, in turn. */
  lemma {:induction false} SurvivingAppend(a: seq<Modification>, b: seq<Modification>, e: Expiry)
    ensures Surviving(a + b, e) == Surviving(a, e) + Surviving(b, e)
  {
    if b != [] {
      var last := |b| - 1;
      var ab := a + b;
      var tail := if Expires(b[last], e) then [] else [b[last]];
      assert ab[..|ab| - 1] == a + b[..last];
      assert ab[|ab| - 1] == b[last];
      assert Surviving(ab, e) == Surviving(a + b[..last], e) + tail;
      SurvivingAppend(a, b[..last], e);
      assert Surviving(b, e) == Surviving(b[..last], e) + tail;
    } else {
      assert a + b == a;
    }
  }

  /** Expiring twice removes nothing more. */
  lemma {:induction false} SurvivingIdempotent(mods: seq<Modification>, e: Expiry)
    ensures Surviving(Surviving(mods, e), e) == Surviving(mods, e)
  {
    if mods != [] {
      var init := mods[..|mods| - 1];
      var last := mods[|mods| - 1];
      SurvivingIdempotent(init, e);
      var tail := if Expires(last, e) then [] else [last];
      SurvivingAppend(Surviving(init, e), tail, e);
      if !Expires(last, e) {
        assert Surviving(tail, e) == Surviving([], e) + [last];
      }
    }
  }

  lemma SurvivingSnoc(mods: seq<Modification>, j: nat, e: Expiry)
    requires j < |mods|
    ensures Surviving(mods[..j + 1], e)
            == Surviving(mods[..j], e) + (if Expires(mods[j], e) then [] else [mods[j]])
  {
    assert mods[..j + 1][..j] == mods[..j];
  }

  // ---------------------------------------------------------------- units

  /** What a unit shares with its prototype and never changes afterwards. */
  datatype UnitKind = UnitKind(id: string, name: string, upkeep: string, armor: int, move: int,
                               maintenanceCost: int, scout: bool, canSummon: string,
                               canCast: string, canProduce: bool, moveType: string,
                               abilities: seq<Ability>)

  /** The static counter behind `assign_new_unit_key`, starting at 1. */
  class KeyCounter {
    var next: int

    constructor ()
      ensures next == 1
    {
      next := 1;
    }

    /** `assign_new_unit_key`: hands out the counter and advances it, so keys are
        handed out in strictly increasing order. */
    method Assign() returns (k: int)
      modifies this
      ensures k == old(next) && next == k + 1
    {
      k := next;
      next := next + 1;
    }
  }

  /** `unit`. The key, side, kind and the two variable stores (`vars`, `vars_turn`, as
      object ids) are fixed once built; location, base life, damage, the moved flag,
      the movement path and the modifications change. */
  class Unit {
    const key: int
    const side: int
    const kind: UnitKind
    const vars: nat
    const varsTurn: nat
    var loc: Loc
    var lifeBase: int
    var damageTaken: int
    var hasMoved: bool
    var path: seq<Loc>
    var mods: seq<Modification>

    /** `unit(node)`, from attribute values already read off the node: a `key`
        attribute of -1 (also what a missing one reads as) draws a fresh key from the
        counter, any other key is kept and the counter left alone. */
    constructor (keyAttr: int, side: int, kind: UnitKind, vars: nat, varsTurn: nat, loc: Loc,
                 lifeBase: int, damageTaken: int, hasMoved: bool, mods: seq<Modification>,
                 keys: KeyCounter)
      modifies keys
      ensures keyAttr == -1 ==> this.key == old(keys.next) && keys.next == old(keys.next) + 1
      ensures keyAttr != -1 ==> this.key == keyAttr && keys.next == old(keys.next)
      ensures this.side == side && this.kind == kind
      ensures this.vars == vars && this.varsTurn == varsTurn && this.loc == loc
      ensures this.lifeBase == lifeBase && this.damageTaken == damageTaken
      ensures this.hasMoved == hasMoved && this.path == [] && this.mods == mods
    {
      var k := keyAttr;
      if keyAttr == -1 {
        k := keys.Assign();
      }
      this.key := k;
      this.side := side;
      this.kind := kind;
      this.vars := vars;
      this.varsTurn := varsTurn;
      this.loc := loc;
      this.lifeBase := lifeBase;
      this.damageTaken := damageTaken;
      this.hasMoved := hasMoved;
      this.path := [];
      this.mods := mods;
    }

    /** `build_from_prototype`: a copy of the prototype (sharing its variable stores,
        as the copied pointers do) on the given side and location, with a fresh key. */
    constructor FromPrototype(proto: Unit, side: int, loc: Loc, keys: KeyCounter)
      modifies keys
      ensures this.key == old(keys.next) && keys.next == old(keys.next) + 1
      ensures this.side == side && this.loc == loc && this.kind == proto.kind
      ensures this.vars == proto.vars && this.varsTurn == proto.varsTurn
      ensures this.lifeBase == proto.lifeBase && this.damageTaken == proto.damageTaken
      ensures this.hasMoved == proto.hasMoved && this.path == proto.path && this.mods == proto.mods
    {
      var k := keys.Assign();
      this.key := k;
      this.side := side;
      this.kind := proto.kind;
      this.vars := proto.vars;
      this.varsTurn := proto.varsTurn;
      this.loc := loc;
      this.lifeBase := proto.lifeBase;
      this.damageTaken := proto.damageTaken;
      this.hasMoved := proto.hasMoved;
      this.path := proto.path;
      this.mods := proto.mods;
    }

    /** The effective value of a stat: the base plus every modification's delta. */
    function Effective(s: Stat): int
      reads this
    {
      (match s
       case Life => lifeBase
       case Armor => kind.armor
       case Move => kind.move) + Total(mods, s)
    }

    /** `life()`, `armor()`, `move()`: one accumulating pass over the modifications. */
    method Stat(s: Stat) returns (result: int)
      ensures result == Effective(s)
    {
      result := match s
        case Life => lifeBase
        case Armor => kind.armor
        case Move => kind.move;
      ghost var base := result;
      var n := 0;
      while n != |mods|
        invariant 0 <= n <= |mods|
        invariant result == base + Total(mods[..n], s)
      {
        result := result + Delta(mods[n], s);
        n := n + 1;
        assert mods[..n][..n - 1] == mods[..n - 1];
      }
      assert mods[..n] == mods;
    }

    /** `new_turn`: clears the moved flag and the path and drops the modifications that
        expire at the end of the turn, keeping the others in order. */
    method NewTurn()
      modifies this
      ensures !hasMoved && path == []
      ensures mods == Surviving(old(mods), EndOfTurn)
      ensures loc == old(loc) && lifeBase == old(lifeBase) && damageTaken == old(damageTaken)
    {
      hasMoved := false;
      path := [];
      DropExpired(EndOfTurn);
    }

    /** `game_state_changed`: drops the modifications that expire on a change of game
        state, keeping the others in order. */
    method GameStateChanged()
      modifies this
      ensures mods == Surviving(old(mods), StateChange)
      ensures loc == old(loc) && lifeBase == old(lifeBase) && damageTaken == old(damageTaken)
      ensures hasMoved == old(hasMoved) && path == old(path)
    {
      DropExpired(StateChange);
    }

    /** The erase loop both methods run: walks the modifications, erasing each one that
        lapses at `e` in place. */
    method DropExpired(e: Expiry)
      modifies this
      ensures mods == Surviving(old(mods), e)
      ensures loc == old(loc) && lifeBase == old(lifeBase) && damageTaken == old(damageTaken)
      ensures hasMoved == old(hasMoved) && path == old(path)
    {
      var i := 0;
      ghost var j := 0;
      ghost var original := mods;
      while i < |mods|
        invariant 0 <= i <= |mods| && 0 <= j <= |original|
        invariant mods[..i] == Surviving(original[..j], e)
        invariant mods[i..] == original[j..]
        invariant loc == old(loc) && lifeBase == old(lifeBase) && damageTaken == old(damageTaken)
        invariant hasMoved == old(hasMoved) && path == old(path)
        decreases |mods| - i
      {
        assert mods[i] == original[j];
        SurvivingSnoc(original, j, e);
        if Expires(mods[i], e) {
          mods := mods[..i] + mods[i + 1..];
        } else {
          i := i + 1;
        }
        j := j + 1;
      }
      assert original[..j] == original by {
        assert |original[j..]| == |mods[i..]| == 0;
      }
    }

    /** `heal`: the damage taken returns to 0. */
    method Heal()
      modifies this
      ensures damageTaken == 0
      ensures loc == old(loc) && lifeBase == old(lifeBase) && mods == old(mods)
      ensures hasMoved == old(hasMoved) && path == old(path)
    {
      damageTaken := 0;
    }

    /** `take_damage`. */
    method TakeDamage(amount: int)
      modifies this
      ensures damageTaken == old(damageTaken) + amount
      ensures loc == old(loc) && lifeBase == old(lifeBase) && mods == old(mods)
      ensures hasMoved == old(hasMoved) && path == old(path)
    {
      damageTaken := damageTaken + amount;
    }

    /** `set_moved`. */
    method SetMoved(value: bool)
      modifies this
      ensures hasMoved == value
      ensures loc == old(loc) && lifeBase == old(lifeBase) && mods == old(mods)
      ensures damageTaken == old(damageTaken) && path == old(path)
    {
      hasMoved := value;
    }

    /** `set_loc`. */
    method SetLoc(l: Loc)
      modifies this
      ensures loc == l
      ensures hasMoved == old(hasMoved) && lifeBase == old(lifeBase) && mods == old(mods)
      ensures damageTaken == old(damageTaken) && path == old(path)
    {
      loc := l;
    }

    /** `add_modification`: appends the modification, so each effective stat moves by
        exactly its delta. */
    method AddModification(m: Modification)
      modifies this
      ensures mods == old(mods) + [m]
      ensures forall s :: Effective(s) == old(Effective(s)) + Delta(m, s)
      ensures loc == old(loc) && lifeBase == old(lifeBase) && damageTaken == old(damageTaken)
      ensures hasMoved == old(hasMoved) && path == old(path)
    {
      mods := mods + [m];
      forall s: Stat
        ensures Total(mods, s) == Total(old(mods), s) + Delta(m, s)
      {
        TotalAppend(old(mods), [m], s);
      }
    }

    /** `can_summon`: the resource character occurs in the unit's summon string. */
    predicate CanSummon(c: char)
    {
      c in kind.canSummon
    }

    /** `can_cast`: the resource character occurs in the unit's cast string. */
    predicate CanCast(c: char)
    {
      c in kind.canCast
    }

    /** `default_ability`: the first ability, or none. */
    function DefaultAbility(): (r: Option<Ability>)
      ensures r.None? <==> kind.abilities == []
      ensures r.Some? ==> r.value == kind.abilities[0]
    {
      if kind.abilities == [] then None else Some(kind.abilities[0])
    }

    /** `get_value`: the values formulas can read from a unit; any other key is null. */
    function GetValue(key: string): (r: Value)
      reads this
      ensures key == "side" ==> r == Int(side)
      ensures key == "life" ==> r == Int(Effective(Life))
      ensures key == "damage" ==> r == Int(damageTaken)
      ensures key == "has_moved" ==> r == Int(if hasMoved then 1 else 0)
      ensures key == "loc" ==> r == Location(loc.x, loc.y)
      ensures key == "vars" ==> r == ObjRef(vars)
      ensures key == "vars_turn" ==> r == ObjRef(varsTurn)
      ensures r == Null <==> key !in {"side", "life", "damage", "has_moved", "loc", "vars", "vars_turn"}
    {
      if key == "side" then Int(side)
      else if key == "life" then Int(lifeBase + Total(mods, Life))
      else if key == "damage" then Int(damageTaken)
      else if key == "has_moved" then Int(if hasMoved then 1 else 0)
      else if key == "loc" then Location(loc.x, loc.y)
      else if key == "vars" then ObjRef(vars)
      else if key == "vars_turn" then ObjRef(varsTurn)
      else Null
    }

    /** `set_value`: "damage" sets the damage taken, "has_moved" the flag, and "life"
        moves the base so that the effective life (and so `get_value("life")`) becomes
        the new value; other keys change nothing. */
    method SetValue(key: string, value: Value)
      modifies this
      ensures key == "damage" ==> damageTaken == AsInt(value)
      ensures key != "damage" ==> damageTaken == old(damageTaken)
      ensures key == "has_moved" ==> hasMoved == AsBool(value)
      ensures key != "has_moved" ==> hasMoved == old(hasMoved)
      ensures key == "life" ==> Effective(Life) == AsInt(value) && GetValue("life") == Int(AsInt(value))
      ensures key != "life" ==> lifeBase == old(lifeBase)
      ensures loc == old(loc) && mods == old(mods) && path == old(path)
    {
      if key == "damage" {
        damageTaken := AsInt(value);
      } else if key == "has_moved" {
        hasMoved := AsBool(value);
      } else if key == "life" {
        var current := Stat(Life);
        lifeBase := lifeBase + (AsInt(value) - current);
      }
    }
  }

  /** The index of the first non-zero gain, or 0 when every gain is zero. */
  function FirstGain(gain: seq<int>): (n: nat)
    ensures n == 0 || (n < |gain| && gain[n] != 0)
    ensures forall k :: 0 <= k < n ==> gain[k] == 0
    ensures (n < |gain| && gain[n] != 0) || forall k :: 0 <= k < |gain| ==> gain[k] == 0
  {
    if gain == [] then 0
    else if gain[0] != 0 then 0
    else
      var r := FirstGain(gain[1..]);
      if r < |gain[1..]| && gain[1..][r] != 0 then r + 1 else 0
  }

  /** `unit::resource_type`: the resource of the first upkeep character (which must be
      a resource id), or for a unit without upkeep the first resource its player
      gains, or 0. `gain` is the owning player's resource gain. */
  method ResourceType(u: Unit, gain: seq<int>) returns (r: Result<nat>)
    ensures u.kind.upkeep != [] ==> (r.Ok? <==> u.kind.upkeep[0] in Resource.ResourceStr)
    ensures u.kind.upkeep != [] && r.Ok? ==> Some(r.value) == Resource.IndexOf(u.kind.upkeep[0])
    ensures u.kind.upkeep == [] ==> r == Ok(FirstGain(gain))
  {
    if u.kind.upkeep != [] {
      r := Resource.ResourceIndex(u.kind.upkeep[0]);
      return;
    }
    var n := 0;
    while n != |gain|
      invariant 0 <= n <= |gain|
      invariant forall k :: 0 <= k < n ==> gain[k] == 0
    {
      if gain[n] != 0 {
        return Ok(n);
      }
      n := n + 1;
    }
    return Ok(0);
  }
}
