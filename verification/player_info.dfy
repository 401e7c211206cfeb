/** A player's account record (src/player_info.cpp): the deck of at most ten distinct
    spells drawn from the collection, and resource editing capped at ten in total. */
module PlayerInfos {
  import opened Wrappers
  import Resource

  /** `strstr(s, w) != NULL`: some window of `s` spells `w`. */
  predicate Contains(s: string, w: string)
    decreases |s|
  {
    |w| <= |s| && (s[..|w|] == w || Contains(s[1..], w))
  }

  /** `w` starts at position `i` of `s`. */
  predicate OccursAt(s: string, w: string, i: int)
  {
    0 <= i && i + |w| <= |s| && s[i..i + |w|] == w
  }

  /** The search finds `w` exactly when it starts at some position of `s`. */
  lemma {:induction false} ContainsAt(s: string, w: string)
    ensures Contains(s, w) <==> exists i :: OccursAt(s, w, i)
    decreases |s|
  {
    if |w| <= |s| && s[..|w|] != w {
      ContainsAt(s[1..], w);
      if exists i :: OccursAt(s, w, i) {
        var i :| OccursAt(s, w, i);
        assert i != 0;
        assert s[1..][i - 1..i - 1 + |w|] == w;
        assert OccursAt(s[1..], w, i - 1);
      }
      if Contains(s[1..], w) {
        var i :| OccursAt(s[1..], w, i);
        assert s[i + 1..i + 1 + |w|] == w;
        assert OccursAt(s, w, i + 1);
      }
    } else if |w| <= |s| {
      assert OccursAt(s, w, 0);
    } else {
      assert forall i :: !OccursAt(s, w, i);
    }
  }

  /** `is_dummy_card`: the id contains "dummy". */
  predicate IsDummyCard(card: string)
  {
    Contains(card, "dummy")
  }

  /** The cards of `cards` that are not dummies, in order (the erase-remove idiom). */
  function RemoveDummies(cards: seq<string>): (r: seq<string>)
    ensures forall c :: c in r <==> c in cards && !IsDummyCard(c)
  {
    if cards == [] then []
    else
      var last := cards[|cards| - 1];
      var init := cards[..|cards| - 1];
      assert cards == init + [last];
      RemoveDummies(init) + (if IsDummyCard(last) then [] else [last])
  }

  /** `deck_` with every copy of `id` taken out and the order of the rest kept. */
  function Without(deck: seq<string>, id: string): (r: seq<string>)
  {
    if deck == [] then []
    else Without(deck[..|deck| - 1], id) + (if deck[|deck| - 1] == id then [] else [deck[|deck| - 1]])
  }

  /** Removing an id keeps exactly the other cards, keeps their order and is idempotent. */
  lemma {:induction false} WithoutMembers(deck: seq<string>, id: string)
    ensures forall c :: c in Without(deck, id) <==> c in deck && c != id
    ensures |Without(deck, id)| <= |deck|
    ensures Without(Without(deck, id), id) == Without(deck, id)
  {
    if deck != [] {
      var init := deck[..|deck| - 1];
      WithoutMembers(init, id);
      assert deck == init + [deck[|deck| - 1]];
      var w := Without(init, id);
      var r := Without(deck, id);
      if deck[|deck| - 1] != id {
        assert r == w + [deck[|deck| - 1]];
        assert r[..|r| - 1] == w && r[|r| - 1] == deck[|deck| - 1];
        assert Without(r, id) == Without(w, id) + [deck[|deck| - 1]];
        assert Without(w, id) == w;
      } else {
        assert r == w + [];
        assert r == w;
        assert Without(w, id) == w;
      }
    }
  }

  /** A deck is well formed when it has at most ten cards, none twice. */
  predicate WellFormedDeck(deck: seq<string>)
  {
    |deck| <= 10 && forall i, j :: 0 <= i < j < |deck| ==> deck[i] != deck[j]
  }

  /** The condition under which `add_to_deck` appends. */
  predicate CanAdd(deck: seq<string>, collection: seq<string>, id: string)
  {
    |deck| < 10 && id !in deck && id in collection
  }

  /** Adding a card the deck may take keeps it well formed. */
  lemma AddKeepsWellFormed(deck: seq<string>, collection: seq<string>, id: string)
    requires WellFormedDeck(deck) && CanAdd(deck, collection, id)
    ensures WellFormedDeck(deck + [id])
  {
    var d := deck + [id];
    forall i, j | 0 <= i < j < |d|
      ensures d[i] != d[j]
    {
      if j == |deck| {
        assert d[i] in deck;
      }
    }
  }

  /** Removing cards keeps a deck well formed. */
  lemma {:induction false} WithoutKeepsWellFormed(deck: seq<string>, id: string)
    requires WellFormedDeck(deck)
    ensures WellFormedDeck(Without(deck, id))
  {
    if deck != [] {
      var init := deck[..|deck| - 1];
      var last := deck[|deck| - 1];
      WithoutKeepsWellFormed(init, id);
      WithoutMembers(init, id);
      var w := Without(init, id);
      if last != id {
        assert last !in init;
        var r := w + [last];
        forall i, j | 0 <= i < j < |r|
          ensures r[i] != r[j]
        {
          if j == |w| {
            assert r[i] in w;
          }
        }
      }
    }
  }

  /** The sum `std::accumulate` computes. */
  function Sum(v: seq<int>): int
  {
    if v == [] then 0 else Sum(v[..|v| - 1]) + v[|v| - 1]
  }

  /** Changing one entry by `d` changes the sum by `d`. */
  lemma {:induction false} SumUpdate(v: seq<int>, i: nat, d: int)
    requires i < |v|
    ensures Sum(v[i := v[i] + d]) == Sum(v) + d
  {
    var last := |v| - 1;
    var u := v[i := v[i] + d];
    if i < last {
      SumUpdate(v[..last], i, d);
      assert u[..last] == v[..last][i := v[i] + d];
    } else {
      assert u[..last] == v[..last];
    }
  }

  /** The resource vector `read` leaves: the first six parsed gains, the rest zero. */
  function FitResources(gains: seq<int>): (r: seq<int>)
    ensures |r| == Resource.NumResources
    ensures forall n :: 0 <= n < Resource.NumResources ==> r[n] == (if n < |gains| then gains[n] else 0)
  {
    seq(Resource.NumResources, n requires 0 <= n < Resource.NumResources => if n < |gains| then gains[n] else 0)
  }

  /** `player_info`. */
  class PlayerInfo {
    var id: string
    var resources: seq<int>
    var deck: seq<string>
    var collection: seq<string>

    /** `player_info(node)`: `read` takes the id, the resource gains and the spells; the
        collection then becomes every known card (`allCards`, from `card::get_all_cards`)
        except the dummies. */
    constructor (id: string, gains: seq<int>, spells: seq<string>, allCards: seq<string>)
      ensures this.id == id && resources == FitResources(gains) && deck == spells
      ensures collection == RemoveDummies(allCards)
    {
      this.id := id;
      resources := FitResources(gains);
      deck := spells;
      var kept: seq<string> := [];
      var n := 0;
      while n != |allCards|
        invariant 0 <= n <= |allCards|
        invariant kept == RemoveDummies(allCards[..n])
      {
        if !IsDummyCard(allCards[n]) {
          kept := kept + [allCards[n]];
        }
        n := n + 1;
        assert allCards[..n][..n - 1] == allCards[..n - 1];
      }
      assert allCards[..n] == allCards;
      collection := kept;
    }

    /** `add_to_deck`: refuses when the deck is full, already has the card or the
        collection lacks it; otherwise appends it. */
    method AddToDeck(card: string) returns (ok: bool)
      modifies this
      ensures ok == CanAdd(old(deck), collection, card)
      ensures deck == if ok then old(deck) + [card] else old(deck)
      ensures id == old(id) && resources == old(resources) && collection == old(collection)
    {
      if |deck| >= 10 || card in deck || card !in collection {
        return false;
      }
      deck := deck + [card];
      return true;
    }

    /** `remove_from_deck`: removes every copy of the card and always answers true. */
    method RemoveFromDeck(card: string) returns (ok: bool)
      modifies this
      ensures ok && deck == Without(old(deck), card)
      ensures id == old(id) && resources == old(resources) && collection == old(collection)
    {
      var kept: seq<string> := [];
      var n := 0;
      while n != |deck|
        invariant 0 <= n <= |deck|
        invariant kept == Without(deck[..n], card)
      {
        if deck[n] != card {
          kept := kept + [deck[n]];
        }
        n := n + 1;
        assert deck[..n][..n - 1] == deck[..n - 1];
      }
      assert deck[..n] == deck;
      deck := kept;
      ok := true;
    }

    /** `modify_resources`: an unknown resource character fails `resource_index`'s
        assertion; the change is refused when the total would exceed ten or the entry
        would go negative; otherwise only that entry changes, by `delta`. */
    method ModifyResources(c: char, delta: int) returns (r: Result<bool>)
      modifies this
      ensures r.Fail? <==> c !in Resource.ResourceStr
      ensures r.Ok? ==> var i := Resource.IndexOf(c).value;
        r.value == (i < |old(resources)| && Sum(old(resources)) + delta <= 10 && old(resources)[i] + delta >= 0)
      ensures r == Ok(true) ==> var i := Resource.IndexOf(c).value;
        i < |old(resources)| && resources == old(resources)[i := old(resources)[i] + delta]
      ensures r != Ok(true) ==> resources == old(resources)
      ensures r == Ok(true) ==> Sum(resources) == Sum(old(resources)) + delta <= 10
      ensures id == old(id) && deck == old(deck) && collection == old(collection)
    {
      var index := Resource.ResourceIndex(c);
      if index.Fail? {
        return Fail(index.reason);
      }
      var i := index.value;
      if i >= |resources| {
        return Ok(false);
      }
      if Sum(resources) + delta > 10 {
        return Ok(false);
      }
      if resources[i] + delta < 0 {
        return Ok(false);
      }
      SumUpdate(resources, i, delta);
      resources := resources[i := resources[i] + delta];
      return Ok(true);
    }
  }
}
