/** Unit abilities (src/unit_ability.cpp): an ability is a card the unit can cast,
    named "<unit id>.<ability id>". */
module UnitAbility {
  import opened Wrappers
  import Text
  import Wml
  import opened HexGeometry
  import opened Messages

  /** `unit_ability`. `validTargets` is the text of the optional formula. */
  datatype Ability = Ability(name: string, id: string, card: string, description: string,
                             icon: string, ntargets: int, range: int, tapsCaster: bool,
                             validTargets: Option<string>)

  /** The `unit_ability` constructor, reading an `ability` node of the unit `unitId`:
      the card is "<unitId>.<id>", the range defaults to -1 and the ability taps its
      caster unless told otherwise. */
  function NewAbility(unitId: string, attrs: Wml.Attrs): (a: Ability)
    ensures a.id == Wml.Attr(attrs, "id") && a.card == unitId + "." + a.id
    ensures "range" !in attrs ==> a.range == -1
    ensures "taps_caster" !in attrs ==> a.tapsCaster
    ensures "targets" !in attrs ==> a.ntargets == 0
  {
    var id := Wml.Attr(attrs, "id");
    var vt := Wml.Attr(attrs, "valid_targets");
    Ability(Wml.Attr(attrs, "name"), id, unitId + "." + id, Wml.Attr(attrs, "description"),
            Wml.Attr(attrs, "icon"), Wml.GetInt(attrs, "targets", 0), Wml.GetInt(attrs, "range", -1),
            Wml.GetBool(attrs, "taps_caster", true), if vt == "" then None else Some(vt))
  }

  /** `unit_ability::write`: every field but the card name, which the reader rebuilds. */
  function WriteAbility(a: Ability): Wml.Attrs
  {
    var m := map["name" := a.name, "id" := a.id, "description" := a.description,
                 "targets" := Text.IntToString(a.ntargets), "range" := Text.IntToString(a.range),
                 "taps_caster" := Wml.YesNo(a.tapsCaster), "icon" := a.icon];
    if a.validTargets.Some? then m["valid_targets" := a.validTargets.value] else m
  }

  /** Reading back what `write` produced gives the same ability, provided the card name
      is the one the unit's id implies and a present formula is not empty text. */
  lemma ReadWriteAbility(unitId: string, a: Ability)
    requires a.card == unitId + "." + a.id
    requires a.validTargets.Some? ==> a.validTargets.value != ""
    ensures NewAbility(unitId, WriteAbility(a)) == a
  {
    var m := WriteAbility(a);
    Text.AtoiIntToString(a.ntargets);
    Text.AtoiIntToString(a.range);
    assert Wml.Attr(m, "name") == a.name && Wml.Attr(m, "id") == a.id;
    assert Wml.Attr(m, "description") == a.description && Wml.Attr(m, "icon") == a.icon;
    assert m["targets"] == Text.IntToString(a.ntargets) && m["range"] == Text.IntToString(a.range);
    assert Wml.GetInt(m, "targets", 0) == a.ntargets;
    assert Wml.GetInt(m, "range", -1) == a.range;
    assert m["taps_caster"] == Wml.YesNo(a.tapsCaster);
    assert Wml.GetBool(m, "taps_caster", true) == a.tapsCaster;
    assert Wml.Attr(m, "valid_targets") == if a.validTargets.Some? then a.validTargets.value else "";
  }

  /** `is_ability_usable`. `hasMoved` is the unit's flag; `cardCost` is the lookup of
      the ability's card (an unknown card fails the lookup's assertion); `canPay` is
      the selector's `player_pay_cost`; `targets` are the valid targets the card
      computes for this unit. */
  function IsAbilityUsable(a: Ability, hasMoved: bool, cardCost: Result<seq<int>>,
                           canPay: seq<int> -> bool, targets: seq<Loc>): (r: Result<bool>)
    ensures a.tapsCaster && hasMoved ==> r == Ok(false)
    ensures !(a.tapsCaster && hasMoved) ==> (r.Fail? <==> cardCost.Fail?)
    ensures r == Ok(true) <==>
              !(a.tapsCaster && hasMoved) && cardCost.Ok? && canPay(cardCost.value)
              && (a.ntargets <= 0 || |targets| >= a.ntargets)
  {
    if a.tapsCaster && hasMoved then Ok(false)
    else if cardCost.Fail? then Fail(cardCost.reason)
    else if !canPay(cardCost.value) then Ok(false)
    else if a.ntargets > 0 && |targets| < a.ntargets then Ok(false)
    else Ok(true)
  }

  /** `use_ability`: asks the selector for `ntargets` locations in turn; the n-th answer
      is `choose(n)`, `None` standing for the invalid location that cancels the use.
      The result is a play of the ability's card by the caster `key` with the chosen
      targets in order. */
  method UseAbility(a: Ability, key: int, choose: nat -> Option<Loc>) returns (r: Option<Play>)
    ensures r.None? <==> exists n: nat :: n < a.ntargets && choose(n).None?
    ensures r.Some? ==> r.value.spell == a.card && r.value.caster == Some(key)
                        && r.value.lands == [] && r.value.monsters == []
    ensures r.Some? ==> |r.value.targets| == (if a.ntargets < 0 then 0 else a.ntargets)
    ensures r.Some? ==> forall n :: 0 <= n < |r.value.targets| ==> Some(r.value.targets[n]) == choose(n)
  {
    var targets: seq<Loc> := [];
    var n := 0;
    while n < a.ntargets
      invariant 0 <= n && (a.ntargets >= 0 ==> n <= a.ntargets) && (a.ntargets < 0 ==> n == 0)
      invariant |targets| == n
      invariant forall k :: 0 <= k < n ==> Some(targets[k]) == choose(k)
      decreases a.ntargets - n
    {
      var loc := choose(n);
      if loc.None? {
        return None;
      }
      targets := targets + [loc.value];
      n := n + 1;
    }
    r := Some(Play(a.card, Some(key), targets, [], []));
  }
}
