/** The earlier card engine (bak/card.cpp): a card's cost vector, `create` (land cards
    only), the deck text format with "count id" items, and the land card's play, which
    asks the player for one hex per land. A card pointer is modelled by the id it holds;
    `card::get` on an id the card file does not define yields a null pointer (`None`),
    since its cache is a `std::map` indexed with `[]`. */
module BakCards {
  import opened Wrappers
  import Text
  import Wml
  import Cards
  import Resource
  import opened HexGeometry

  /** A `const_card_ptr`: the id of the card, or null. */
  type CardRef = Option<string>

  datatype Card = Card(id: string, name: string, cost: seq<int>, land: seq<string>)

  // ---------------------------------------------------------------- cards

  /** `card::create`: only "land" cards are recognised; the land list is the
      comma-separated `land` attribute and the cost vector counts each resource's id
      character in `cost`. */
  function Create(attrs: Wml.Attrs): (r: Result<Card>)
    ensures r.Ok? <==> Wml.Attr(attrs, "type") == "land"
    ensures r.Ok? ==> r.value.id == Wml.Attr(attrs, "id") && r.value.name == Wml.Attr(attrs, "name")
                      && r.value.land == Text.Split(Wml.Attr(attrs, "land"), ',')
                      && |r.value.cost| == Resource.NumResources
  {
    if Wml.Attr(attrs, "type") == "land" then
      Ok(Card(Wml.Attr(attrs, "id"), Wml.Attr(attrs, "name"), Cards.CostOf(Wml.Attr(attrs, "cost")),
              Text.Split(Wml.Attr(attrs, "land"), ',')))
    else Fail("UNRECOGNIZED CARD TYPE")
  }

  /** `card::cost`: an index outside the vector fails its assertion. */
  function Cost(c: Card, n: int): (r: Result<int>)
    ensures r.Ok? <==> 0 <= n < |c.cost|
  {
    if 0 <= n < |c.cost| then Ok(c.cost[n]) else Fail("index out of range")
  }

  /** A created card charges, for each resource, the number of times the resource's id
      character occurs in its cost string. */
  lemma CreatedCost(attrs: Wml.Attrs, n: nat)
    requires Wml.Attr(attrs, "type") == "land" && n < Resource.NumResources
    ensures Cost(Create(attrs).value, n) == Ok(Text.Count(Wml.Attr(attrs, "cost"), Resource.ResourceId(n)))
  {
  }

  // ---------------------------------------------------------------- decks

  /** `card::get(id)`: the card of a known id, null otherwise. */
  function Get(id: string, known: set<string>): (r: CardRef)
    ensures r.Some? <==> id in known
    ensures r.Some? ==> r.value == id
  {
    if id in known then Some(id) else None
  }

  /** `count` copies of a card; none for a count below one. */
  function Copies(c: CardRef, count: int): (r: seq<CardRef>)
    ensures |r| == if count < 0 then 0 else count
    ensures forall i :: 0 <= i < |r| ==> r[i] == c
    decreases count
  {
    if count <= 0 then [] else Copies(c, count - 1) + [c]
  }

  /** One deck item: "id" is one copy, "count id" is `atoi(count)` copies; any other
      number of space-separated tokens fails. */
  function ReadItem(item: string, known: set<string>): (r: Result<seq<CardRef>>)
    ensures r.Fail? <==> |Text.Split(item, ' ')| != 1 && |Text.Split(item, ' ')| != 2
  {
    var v := Text.Split(item, ' ');
    if |v| != 1 && |v| != 2 then Fail("ILLEGAL DECK FORMAT")
    else Ok(Copies(Get(v[|v| - 1], known), if |v| == 2 then Text.Atoi(v[0]) else 1))
  }

  /** The items in order, each expanded; the first illegal item fails the whole deck. */
  function ReadItems(items: seq<string>, known: set<string>): (r: Result<seq<CardRef>>)
  {
    if items == [] then Ok([])
    else
      var init := ReadItems(items[..|items| - 1], known);
      var last := ReadItem(items[|items| - 1], known);
      if init.Fail? then init
      else if last.Fail? then Fail(last.reason)
      else Ok(init.value + last.value)
  }

  /** `read_deck`: split on commas, then push each item's copies in turn. */
  method ReadDeck(str: string, known: set<string>) returns (r: Result<seq<CardRef>>)
    ensures r == ReadItems(Text.Split(str, ','), known)
  {
    var items := Text.Split(str, ',');
    var result: seq<CardRef> := [];
    var n := 0;
    while n != |items|
      invariant 0 <= n <= |items|
      invariant ReadItems(items[..n], known) == Ok(result)
    {
      assert items[..n + 1][..n] == items[..n];
      var v := Text.Split(items[n], ' ');
      if |v| != 1 && |v| != 2 {
        FailurePersists(items, n, known);
        return Fail("ILLEGAL DECK FORMAT");
      }
      var numCards := 1;
      if |v| == 2 {
        numCards := Text.Atoi(v[0]);
      }
      var card := Get(v[|v| - 1], known);
      assert ReadItem(items[n], known) == Ok(Copies(card, numCards));
      assert items[..n + 1][n] == items[n];
      result := PushCopies(result, card, numCards);
      n := n + 1;
    }
    assert items[..n] == items;
    r := Ok(result);
  }

  /** The inner loop of `read_deck`: push `count` copies of a card. */
  method PushCopies(result: seq<CardRef>, card: CardRef, count: int) returns (r: seq<CardRef>)
    ensures r == result + Copies(card, count)
  {
    r := result;
    var k := 0;
    while k < count
      invariant 0 <= k <= if count < 0 then 0 else count
      invariant r == result + Copies(card, k)
    {
      r := r + [card];
      k := k + 1;
    }
    if count < 0 {
      assert k == 0 && Copies(card, count) == [];
    }
  }

  /** Once an item is illegal, every longer list of items fails with its reason. */
  lemma {:induction false} FailurePersists(items: seq<string>, n: nat, known: set<string>)
    requires n < |items| && ReadItems(items[..n], known).Ok? && ReadItem(items[n], known).Fail?
    ensures ReadItems(items, known) == Fail("ILLEGAL DECK FORMAT")
    decreases |items| - n
  {
    if n + 1 < |items| {
      assert items[..|items| - 1][..n] == items[..n];
      assert items[..|items| - 1][n] == items[n];
      FailurePersists(items[..|items| - 1], n, known);
    } else {
      assert items[..|items| - 1] == items[..n];
    }
  }

  /** An id `write_deck` writes and `read_deck` reads back: non-empty, with no white
      space at its ends and no comma or space inside. */
  predicate WritableId(id: string)
  {
    id != [] && Text.Trimmed(id) && ',' !in id && ' ' !in id
  }

  /** "count id" gives `count` copies of the card, none when the count is not positive. */
  lemma ReadCountedItem(count: int, id: string, known: set<string>)
    requires WritableId(id)
    ensures ReadItem(Text.IntToString(count) + " " + id, known) == Ok(Copies(Get(id, known), count))
  {
    var c := Text.IntToString(count);
    Text.SplitJoin([c, id], ' ');
    assert Text.Join([c, id], ' ') == c + " " + id by {
      assert [c, id][1..] == [id];
    }
    Text.AtoiIntToString(count);
  }

  /** A lone id is one copy of its card. */
  lemma ReadSingleItem(id: string, known: set<string>)
    requires WritableId(id)
    ensures ReadItem(id, known) == Ok([Get(id, known)])
  {
    assert Text.Split(id, ' ') == [id] by {
      Text.SplitJoin([id], ' ');
      assert Text.Join([id], ' ') == id;
    }
    var v := Text.Split(id, ' ');
    assert |v| == 1 && v[|v| - 1] == id;
    assert Copies(Get(id, known), 1) == [Get(id, known)];
    assert ReadItem(id, known) == Ok(Copies(Get(v[|v| - 1], known), 1));
  }

  /** The ids of non-null cards. */
  function Ids(cards: seq<CardRef>): (r: seq<string>)
    requires forall i :: 0 <= i < |cards| ==> cards[i].Some?
    ensures |r| == |cards| && forall i :: 0 <= i < |cards| ==> cards[i] == Some(r[i])
  {
    seq(|cards|, i requires 0 <= i < |cards| => cards[i].value)
  }

  lemma IdsSnoc(cards: seq<CardRef>, n: nat)
    requires n < |cards| && forall i :: 0 <= i <= n ==> cards[i].Some?
    ensures Ids(cards[..n + 1]) == Ids(cards[..n]) + [cards[n].value]
  {
    assert Ids(cards[..n + 1])[n] == cards[n].value;
  }

  /** `write_deck`: the ids joined with commas; a null card is dereferenced, which fails. */
  method WriteDeck(cards: seq<CardRef>) returns (r: Result<string>)
    ensures r.Fail? <==> None in cards
    ensures r.Ok? ==> r.value == Text.Join(Ids(cards), ',')
  {
    var result := "";
    var n := 0;
    while n != |cards|
      invariant 0 <= n <= |cards|
      invariant None !in cards[..n]
      invariant result == Text.Join(Ids(cards[..n]), ',')
    {
      if cards[n].None? {
        assert cards[n] in cards;
        return Fail("null card");
      }
      ghost var ids := Ids(cards[..n]);
      IdsSnoc(cards, n);
      Text.JoinSnoc(ids, cards[n].value, ',');
      assert ids == [] <==> n == 0;
      if n != 0 {
        result := result + ",";
      }
      result := result + cards[n].value;
      n := n + 1;
    }
    assert cards[..n] == cards;
    r := Ok(result);
  }

  /** `read_deck(write_deck(d)) == d` for a deck of known cards with writable ids. */
  lemma ReadWrittenDeck(cards: seq<CardRef>, known: set<string>)
    requires forall i :: 0 <= i < |cards| ==> cards[i].Some? && cards[i].value in known && WritableId(cards[i].value)
    ensures ReadItems(Text.Split(Text.Join(Ids(cards), ','), ','), known) == Ok(cards)
  {
    Text.SplitJoin(Ids(cards), ',');
    ReadItemsOfIds(cards, known);
  }

  lemma {:induction false} ReadItemsOfIds(cards: seq<CardRef>, known: set<string>)
    requires forall i :: 0 <= i < |cards| ==> cards[i].Some? && cards[i].value in known && WritableId(cards[i].value)
    ensures ReadItems(Ids(cards), known) == Ok(cards)
  {
    if cards != [] {
      var k := |cards| - 1;
      var ids := Ids(cards);
      assert ids[..k] == Ids(cards[..k]);
      ReadItemsOfIds(cards[..k], known);
      ReadSingleItem(ids[k], known);
      assert cards[..k] + [cards[k]] == cards;
    }
  }

  // ---------------------------------------------------------------- playing a land

  /** A `land` child of a play: where to put which terrain. */
  datatype LandPlace = LandPlace(loc: Loc, land: string)

  /** The "play" node: the card played and its land children. */
  datatype Play = Play(card: string, lands: seq<LandPlace>)

  /** `land_card::play_card`: for each land of the card in turn the player selects a hex
      (`select(i)` is the i-th answer, `None` when the selection is not a valid location);
      the first invalid selection abandons the play, otherwise each land is placed where
      it was selected. */
  method PlayLandCard(c: Card, select: nat -> Option<Loc>) returns (r: Option<Play>)
    ensures r.Some? <==> forall i :: 0 <= i < |c.land| ==> select(i).Some?
    ensures r.Some? ==> r.value.card == c.id && |r.value.lands| == |c.land|
                        && forall i :: 0 <= i < |c.land| ==> r.value.lands[i] == LandPlace(select(i).value, c.land[i])
  {
    var lands: seq<LandPlace> := [];
    var n := 0;
    while n != |c.land|
      invariant 0 <= n <= |c.land| && |lands| == n
      invariant forall i :: 0 <= i < n ==> select(i).Some? && lands[i] == LandPlace(select(i).value, c.land[i])
    {
      var loc := select(n);
      if loc.None? {
        return None;
      }
      lands := lands + [LandPlace(loc.value, c.land[n])];
      n := n + 1;
    }
    r := Some(Play(c.id, lands));
  }
}
