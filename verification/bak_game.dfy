/** The earlier game engine (bak/game.cpp): a board of terrain ids, players holding a
    deck and a hand of cards, and the messages that set the board up, hand a player a
    deck, play a land card and end a turn. Every handled message queues the game's
    written state; `write()`'s WML rendering (wml_writer, bak/tile.cpp) is not part of
    this model, so a queued state is the value it is written from. A failed assertion
    ends the server; the handlers report it as `ok == false`. */
module BakGame {
  import opened Wrappers
  import Text
  import Wml
  import opened HexGeometry
  import BakCards
  import CInt

  type CardRef = BakCards.CardRef

  datatype Player = Player(name: string, deck: seq<CardRef>, hand: seq<CardRef>)

  datatype GameState = StateSetup | StatePlaying

  /** What `game::write()` writes. */
  datatype GameDoc = GameDoc(started: bool, width: int, height: int, tiles: seq<string>, players: seq<Player>)

  /** A queued message: the written game, or the `[new_turn]` notice naming a player. */
  datatype Outgoing = State(doc: GameDoc) | NewTurn(player: string)

  /** `draw_hand` stops at this many cards. */
  const HandSize := 5

  // ---------------------------------------------------------------- drawing

  function Reverse<T>(s: seq<T>): (r: seq<T>)
    ensures |r| == |s| && forall i :: 0 <= i < |s| ==> r[i] == s[|s| - 1 - i]
  {
    if s == [] then [] else [s[|s| - 1]] + Reverse(s[..|s| - 1])
  }

  lemma {:induction false} ReverseMultiset<T>(s: seq<T>)
    ensures multiset(Reverse(s)) == multiset(s)
  {
    if s != [] {
      ReverseMultiset(s[..|s| - 1]);
      assert s == s[..|s| - 1] + [s[|s| - 1]];
    }
  }

  /** One step of `draw_hand`'s loop. */
  function DrawOne(p: Player): Player
    requires p.deck != []
  {
    Player(p.name, p.deck[..|p.deck| - 1], p.hand + [p.deck[|p.deck| - 1]])
  }

  /** The player after `draw_hand`: cards move from the back of the deck to the hand
      while the deck is not empty and the hand holds fewer than five. */
  function Drawn(p: Player): Player
    decreases |p.deck|
  {
    if p.deck != [] && |p.hand| < HandSize then Drawn(DrawOne(p)) else p
  }

  /** How many cards `draw_hand` moves. */
  function DrawCount(p: Player): (m: nat)
    ensures m <= |p.deck|
  {
    if |p.hand| >= HandSize then 0
    else if HandSize - |p.hand| < |p.deck| then HandSize - |p.hand|
    else |p.deck|
  }

  /** The hand gains the deck's last `DrawCount` cards, the last card first, and the deck
      keeps the rest in order. */
  lemma {:induction false} DrawnFromBack(p: Player)
    ensures var m := DrawCount(p);
            Drawn(p) == Player(p.name, p.deck[..|p.deck| - m], p.hand + Reverse(p.deck[|p.deck| - m..]))
    decreases |p.deck|
  {
    if p.deck != [] && |p.hand| < HandSize {
      var m := DrawCount(p);
      var n := |p.deck|;
      var q := DrawOne(p);
      assert 1 <= m && DrawCount(q) == m - 1;
      assert Drawn(q) == Player(p.name, p.deck[..n - m], p.hand + Reverse(p.deck[n - m..])) by {
        DrawnFromBack(q);
        DrawStep(p.deck, p.hand, m);
      }
    } else {
      assert p.deck[..|p.deck|] == p.deck;
      assert p.deck[|p.deck|..] == [];
    }
  }

  /** Moving the deck's last card to the hand, then `m - 1` more from the back, is
      moving `m` from the back at once. */
  lemma DrawStep<T>(deck: seq<T>, hand: seq<T>, m: nat)
    requires 1 <= m <= |deck|
    ensures var n := |deck|;
      var rest := deck[..n - 1];
      rest[..|rest| - (m - 1)] == deck[..n - m]
      && (hand + [deck[n - 1]]) + Reverse(rest[|rest| - (m - 1)..]) == hand + Reverse(deck[n - m..])
  {
    var n := |deck|;
    var tail := deck[n - m..];
    assert deck[..n - 1][n - m..] == tail[..m - 1];
    assert tail[m - 1] == deck[n - 1];
    assert Reverse(tail) == [deck[n - 1]] + Reverse(tail[..m - 1]);
  }

  /** `draw_hand` fills the hand up to five cards, or as far as the deck allows; a hand
      of five or more is left alone. */
  lemma DrawnFills(p: Player)
    ensures |Drawn(p).hand| == if |p.hand| >= HandSize then |p.hand|
                               else if |p.hand| + |p.deck| < HandSize then |p.hand| + |p.deck|
                               else HandSize
    ensures |Drawn(p).hand| < HandSize ==> Drawn(p).deck == []
  {
    DrawnFromBack(p);
  }

  /** No card is created or lost: the deck and the hand hold the same cards as before. */
  lemma DrawnConserves(p: Player)
    ensures multiset(Drawn(p).deck) + multiset(Drawn(p).hand) == multiset(p.deck) + multiset(p.hand)
    ensures Drawn(p).name == p.name
  {
    DrawnFromBack(p);
    var k := |p.deck| - DrawCount(p);
    var d := Drawn(p);
    assert d.deck == p.deck[..k] && d.hand == p.hand + Reverse(p.deck[k..]);
    MoveConserves(p.deck, p.hand, k);
  }

  /** Moving the tail of a deck, reversed, onto a hand keeps the cards of both. */
  lemma MoveConserves<T>(deck: seq<T>, hand: seq<T>, k: nat)
    requires k <= |deck|
    ensures multiset(deck[..k]) + multiset(hand + Reverse(deck[k..])) == multiset(deck) + multiset(hand)
  {
    var head, tail := deck[..k], deck[k..];
    ReverseMultiset(tail);
    assert deck == head + tail;
    calc {
      multiset(head) + multiset(hand + Reverse(tail));
      multiset(head) + (multiset(hand) + multiset(tail));
      (multiset(head) + multiset(tail)) + multiset(hand);
    }
  }

  // ---------------------------------------------------------------- playing a card

  /** The scan of `play_card` over the hand from position `from`: the first card with
      the id, none, or a failure when a null card is reached first (`c->id()` on a null
      pointer). */
  function FindFrom(hand: seq<CardRef>, id: string, from: nat): (r: Result<Option<nat>>)
    requires from <= |hand|
    ensures r == Ok(None) <==> forall j :: from <= j < |hand| ==> hand[j].Some? && hand[j].value != id
    ensures r.Ok? && r.value.Some? ==>
              from <= r.value.value < |hand| && hand[r.value.value] == Some(id)
              && forall j :: from <= j < r.value.value ==> hand[j].Some? && hand[j].value != id
    ensures r.Fail? ==>
              exists j :: from <= j < |hand| && hand[j].None? && forall k :: from <= k < j ==> hand[k].Some? && hand[k].value != id
    decreases |hand| - from
  {
    if from == |hand| then Ok(None)
    else if hand[from].None? then Fail("null card")
    else if hand[from].value == id then Ok(Some(from))
    else FindFrom(hand, id, from + 1)
  }

  /** `std::remove` of the null pointers followed by `erase`. */
  function RemoveNulls(s: seq<CardRef>): (r: seq<CardRef>)
    ensures None !in r
  {
    if s == [] then []
    else (if s[0].None? then [] else [s[0]]) + RemoveNulls(s[1..])
  }

  lemma {:induction false} RemoveNullsAppend(a: seq<CardRef>, b: seq<CardRef>)
    ensures RemoveNulls(a + b) == RemoveNulls(a) + RemoveNulls(b)
  {
    if a != [] {
      RemoveNullsAppend(a[1..], b);
      assert (a + b)[0] == a[0];
      assert (a + b)[1..] == a[1..] + b;
      var head := if a[0].None? then [] else [a[0]];
      assert RemoveNulls(a + b) == head + RemoveNulls(a[1..] + b);
      assert RemoveNulls(a) == head + RemoveNulls(a[1..]);
      assert head + (RemoveNulls(a[1..]) + RemoveNulls(b)) == (head + RemoveNulls(a[1..])) + RemoveNulls(b);
    } else {
      assert a + b == b;
    }
  }

  lemma {:induction false} RemoveNullsKeeps(s: seq<CardRef>)
    requires None !in s
    ensures RemoveNulls(s) == s
  {
    if s != [] {
      RemoveNullsKeeps(s[1..]);
    }
  }

  /** In a hand without null cards, playing a card removes exactly the first card with
      that id and keeps the others in order. */
  lemma PlayRemovesFirst(hand: seq<CardRef>, id: string)
    requires None !in hand && FindFrom(hand, id, 0).Ok? && FindFrom(hand, id, 0).value.Some?
    ensures var i := FindFrom(hand, id, 0).value.value;
            RemoveNulls(hand[i := None]) == hand[..i] + hand[i + 1..]
            && multiset(RemoveNulls(hand[i := None])) == multiset(hand) - multiset{Some(id)}
  {
    var i := FindFrom(hand, id, 0).value.value;
    RemoveAt(hand, i);
    assert multiset(hand) == multiset(hand[..i]) + multiset{Some(id)} + multiset(hand[i + 1..]) by {
      assert hand == hand[..i] + [Some(id)] + hand[i + 1..];
    }
  }

  /** Resetting one card of a null-free hand and erasing the nulls drops that card. */
  lemma RemoveAt(hand: seq<CardRef>, i: nat)
    requires None !in hand && i < |hand|
    ensures RemoveNulls(hand[i := None]) == hand[..i] + hand[i + 1..]
  {
    var before, after := hand[..i], hand[i + 1..];
    calc {
      RemoveNulls(hand[i := None]);
      { assert hand[i := None] == before + ([None] + after); }
      RemoveNulls(before + ([None] + after));
      { RemoveNullsAppend(before, [None] + after); }
      RemoveNulls(before) + RemoveNulls([None] + after);
      { RemoveNullsAppend([None], after);
        assert RemoveNulls([None]) == []; }
      RemoveNulls(before) + RemoveNulls(after);
      { RemoveNullsKeeps(before);
        RemoveNullsKeeps(after); }
      before + after;
    }
  }

  // ---------------------------------------------------------------- tiles

  /** `get_tile(x, y)`: no tile before the game has started or off the board; otherwise
      the tile at row `y`, column `x` of the row-major tile list. */
  function TileIndex(started: bool, width: int, height: int, x: int, y: int): (r: Option<int>)
    ensures r.Some? <==> started && 0 <= x < width && 0 <= y < height
    ensures r.Some? ==> 0 <= r.value < width * height && r.value % width == x && r.value / width == y
  {
    if !started || x < 0 || y < 0 || x >= width || y >= height then None
    else
      RowMajor(x, y, width, height);
      Some(y * width + x)
  }

  lemma RowMajor(x: int, y: int, width: int, height: int)
    requires 0 <= x < width && 0 <= y < height
    ensures 0 <= y * width + x < width * height
    ensures (y * width + x) % width == x && (y * width + x) / width == y
  {
    CInt.MulLe(0, y, width);
    CInt.MulLe(y + 1, height, width);
    assert (y + 1) * width == y * width + width;
    assert height * width == width * height;
    CInt.DivModUnique(y * width + x, width, y, x);
  }

  /** The board after the land children of a play, applied in order; an off-board
      location fails. */
  function PlaceLands(tiles: seq<string>, started: bool, width: int, height: int, lands: seq<BakCards.LandPlace>)
    : (r: Result<seq<string>>)
    requires width * height == |tiles|
    ensures r.Ok? ==> |r.value| == |tiles|
  {
    if lands == [] then Ok(tiles)
    else
      var last := lands[|lands| - 1];
      match PlaceLands(tiles, started, width, height, lands[..|lands| - 1])
      case Fail(why) => Fail(why)
      case Ok(t) =>
        match TileIndex(started, width, height, last.loc.x, last.loc.y)
        case None => Fail("ILLEGAL TILE LOCATION")
        case Some(k) => Ok(t[k := last.land])
  }

  /** The index a land child names, if on the board. */
  function Target(started: bool, width: int, height: int, l: BakCards.LandPlace): Option<int>
  {
    TileIndex(started, width, height, l.loc.x, l.loc.y)
  }

  /** A play is applied exactly when every land child is on the board. */
  lemma {:induction false} PlaceLandsOk(tiles: seq<string>, started: bool, width: int, height: int,
                                        lands: seq<BakCards.LandPlace>)
    requires width * height == |tiles|
    ensures PlaceLands(tiles, started, width, height, lands).Ok? <==>
              forall j :: 0 <= j < |lands| ==> Target(started, width, height, lands[j]).Some?
  {
    if lands != [] {
      var init := lands[..|lands| - 1];
      PlaceLandsOk(tiles, started, width, height, init);
      assert forall j :: 0 <= j < |init| ==> init[j] == lands[j];
    }
  }

  /** A tile no land child names keeps its terrain. */
  lemma {:induction false} PlaceLandsKeeps(tiles: seq<string>, started: bool, width: int, height: int,
                                           lands: seq<BakCards.LandPlace>, k: int)
    requires width * height == |tiles| && PlaceLands(tiles, started, width, height, lands).Ok?
    requires 0 <= k < |tiles| && forall j :: 0 <= j < |lands| ==> Target(started, width, height, lands[j]) != Some(k)
    ensures PlaceLands(tiles, started, width, height, lands).value[k] == tiles[k]
  {
    if lands != [] {
      var init := lands[..|lands| - 1];
      assert forall j :: 0 <= j < |init| ==> init[j] == lands[j];
      PlaceLandsKeeps(tiles, started, width, height, init, k);
    }
  }

  /** A tile holds the land of the last child naming it. */
  lemma {:induction false} PlaceLandsLast(tiles: seq<string>, started: bool, width: int, height: int,
                                          lands: seq<BakCards.LandPlace>, j: int, k: int)
    requires width * height == |tiles| && PlaceLands(tiles, started, width, height, lands).Ok?
    requires 0 <= j < |lands| && Target(started, width, height, lands[j]) == Some(k)
    requires forall j' :: j < j' < |lands| ==> Target(started, width, height, lands[j']) != Some(k)
    ensures PlaceLands(tiles, started, width, height, lands).value[k] == lands[j].land
  {
    var n := |lands| - 1;
    if j < n {
      var init := lands[..n];
      assert forall j' :: 0 <= j' < |init| ==> init[j'] == lands[j'];
      PlaceLandsLast(tiles, started, width, height, init, j, k);
    }
  }

  // ---------------------------------------------------------------- setup


  /** A tower's mirror image across the board's vertical middle. */
  function Mirror(width: int, pos: (int, int)): (int, int)
  {
    (width - pos.0 - 1, pos.1)
  }

  /** The tower list `setup_game` builds: each random pick followed by its mirror. */
  function TowersOf(width: int, picks: seq<(int, int)>): (r: seq<(int, int)>)
    ensures |r| == 2 * |picks|
  {
    if picks == [] then []
    else TowersOf(width, picks[..|picks| - 1]) + [picks[|picks| - 1], Mirror(width, picks[|picks| - 1])]
  }

  lemma {:induction false} TowersMembers(width: int, picks: seq<(int, int)>, pos: (int, int))
    ensures pos in TowersOf(width, picks) <==>
              exists k :: 0 <= k < |picks| && (pos == picks[k] || pos == Mirror(width, picks[k]))
  {
    if picks != [] {
      var n := |picks| - 1;
      TowersMembers(width, picks[..n], pos);
      if exists k :: 0 <= k < |picks| && (pos == picks[k] || pos == Mirror(width, picks[k])) {
        var k :| 0 <= k < |picks| && (pos == picks[k] || pos == Mirror(width, picks[k]));
        if k < n {
          assert picks[..n][k] == picks[k];
        }
      }
      if exists k :: 0 <= k < n && (pos == picks[..n][k] || pos == Mirror(width, picks[..n][k])) {
        var k :| 0 <= k < n && (pos == picks[..n][k] || pos == Mirror(width, picks[..n][k]));
        assert picks[..n][k] == picks[k];
      }
    }
  }

  const SetupWidth := 15
  const SetupHeight := 9

  /** The terrain `setup_game` puts at (x, y): a castle at (1, 4) and (13, 4), a tower
      where the tower list has the location, and void elsewhere. */
  function SetupType(towers: seq<(int, int)>, x: int, y: int): string
  {
    if y == 4 && (x == 1 || x == 13) then "castle"
    else if (x, y) in towers then "tower"
    else "void"
  }

  /** The board `setup_game` lays out, row by row. */
  function SetupTiles(towers: seq<(int, int)>): (r: seq<string>)
    ensures |r| == SetupWidth * SetupHeight
  {
    seq(SetupWidth * SetupHeight, i requires 0 <= i < SetupWidth * SetupHeight => SetupType(towers, i % SetupWidth, i / SetupWidth))
  }

  /** `get_tile` on the set-up board finds the terrain of its layout. */
  lemma SetupTileAt(towers: seq<(int, int)>, x: int, y: int)
    requires 0 <= x < SetupWidth && 0 <= y < SetupHeight
    ensures TileIndex(true, SetupWidth, SetupHeight, x, y).Some?
    ensures SetupTiles(towers)[TileIndex(true, SetupWidth, SetupHeight, x, y).value] == SetupType(towers, x, y)
  {
  }

  /** The set-up board is left-right symmetric. */
  lemma SetupSymmetric(picks: seq<(int, int)>, x: int, y: int)
    ensures SetupType(TowersOf(SetupWidth, picks), x, y) == SetupType(TowersOf(SetupWidth, picks), SetupWidth - x - 1, y)
  {
    var towers := TowersOf(SetupWidth, picks);
    var m := Mirror(SetupWidth, (x, y));
    assert Mirror(SetupWidth, m) == (x, y);
    TowersMembers(SetupWidth, picks, (x, y));
    TowersMembers(SetupWidth, picks, m);
    if (x, y) in towers {
      var k :| 0 <= k < |picks| && ((x, y) == picks[k] || (x, y) == Mirror(SetupWidth, picks[k]));
      assert m == picks[k] || m == Mirror(SetupWidth, picks[k]);
    }
    if m in towers {
      var k :| 0 <= k < |picks| && (m == picks[k] || m == Mirror(SetupWidth, picks[k]));
      assert (x, y) == picks[k] || (x, y) == Mirror(SetupWidth, picks[k]);
    }
  }

  /** Every random pick becomes a tower unless it falls on a castle. */
  lemma PicksAreTowers(picks: seq<(int, int)>, k: nat)
    requires k < |picks|
    ensures SetupType(TowersOf(SetupWidth, picks), picks[k].0, picks[k].1) in {"tower", "castle"}
  {
    TowersMembers(SetupWidth, picks, picks[k]);
  }

  /** The random picks `rand() % width`, `rand() % height`: eight, each on the board. */
  predicate ValidPicks(picks: seq<(int, int)>)
  {
    |picks| == 8 && forall k :: 0 <= k < |picks| ==> 0 <= picks[k].0 < SetupWidth && 0 <= picks[k].1 < SetupHeight
  }

  // ---------------------------------------------------------------- loading

  /** One player of a saved game: its name, and its deck and hand read with `read_deck`. */
  function LoadPlayer(node: Wml.Attrs, known: set<string>): (r: Result<Player>)
    ensures r.Ok? <==> BakCards.ReadItems(Text.Split(Wml.Attr(node, "deck"), ','), known).Ok?
                       && BakCards.ReadItems(Text.Split(Wml.Attr(node, "hand"), ','), known).Ok?
  {
    var deck := BakCards.ReadItems(Text.Split(Wml.Attr(node, "deck"), ','), known);
    var hand := BakCards.ReadItems(Text.Split(Wml.Attr(node, "hand"), ','), known);
    if deck.Fail? then Fail(deck.reason)
    else if hand.Fail? then Fail(hand.reason)
    else Ok(Player(Wml.Attr(node, "name"), deck.value, hand.value))
  }

  /** The players of a saved game, in order; the first that does not load fails. */
  function LoadedPlayers(nodes: seq<Wml.Attrs>, known: set<string>): (r: Result<seq<Player>>)
    ensures r.Ok? ==> |r.value| == |nodes|
  {
    if nodes == [] then Ok([])
    else
      var init := LoadedPlayers(nodes[..|nodes| - 1], known);
      var last := LoadPlayer(nodes[|nodes| - 1], known);
      if init.Fail? then init
      else if last.Fail? then Fail(last.reason)
      else Ok(init.value + [last.value])
  }

  /** The player loop of `game(node)`. */
  method LoadPlayers(nodes: seq<Wml.Attrs>, known: set<string>) returns (r: Result<seq<Player>>)
    ensures r == LoadedPlayers(nodes, known)
  {
    var players: seq<Player> := [];
    var n := 0;
    while n != |nodes|
      invariant 0 <= n <= |nodes|
      invariant LoadedPlayers(nodes[..n], known) == Ok(players)
    {
      assert nodes[..n + 1][..n] == nodes[..n];
      assert nodes[..n + 1][n] == nodes[n];
      var deck := BakCards.ReadDeck(Wml.Attr(nodes[n], "deck"), known);
      if deck.Fail? {
        LoadFailurePersists(nodes, n, known);
        return Fail(deck.reason);
      }
      var hand := BakCards.ReadDeck(Wml.Attr(nodes[n], "hand"), known);
      if hand.Fail? {
        LoadFailurePersists(nodes, n, known);
        return Fail(hand.reason);
      }
      players := players + [Player(Wml.Attr(nodes[n], "name"), deck.value, hand.value)];
      n := n + 1;
    }
    assert nodes[..n] == nodes;
    r := Ok(players);
  }

  lemma LoadFailurePersists(nodes: seq<Wml.Attrs>, n: nat, known: set<string>)
    requires n < |nodes| && LoadedPlayers(nodes[..n], known).Ok? && LoadPlayer(nodes[n], known).Fail?
    ensures LoadedPlayers(nodes, known) == Fail(LoadPlayer(nodes[n], known).reason)
  {
    var first := nodes[..n + 1];
    assert first[..n] == nodes[..n] && first[n] == nodes[n];
    assert LoadedPlayers(first, known) == Fail(LoadPlayer(nodes[n], known).reason);
    LoadFailedPrefix(nodes, n + 1, known);
  }

  /** A failure among the first `m` players is the failure of the whole list. */
  lemma {:induction false} LoadFailedPrefix(nodes: seq<Wml.Attrs>, m: nat, known: set<string>)
    requires m <= |nodes| && LoadedPlayers(nodes[..m], known).Fail?
    ensures LoadedPlayers(nodes, known) == LoadedPlayers(nodes[..m], known)
    decreases |nodes|
  {
    if m == |nodes| {
      assert nodes[..m] == nodes;
    } else {
      var init := nodes[..|nodes| - 1];
      assert init[..m] == nodes[..m];
      LoadFailedPrefix(init, m, known);
    }
  }

  // ---------------------------------------------------------------- the game

  class Game {
    var started: bool
    var tiles: seq<string>
    var width: int
    var height: int
    var players: seq<Player>
    var outgoing: seq<Outgoing>
    var state: GameState
    var playerTurn: int

    /** The board has a tile per hex, and the turn is -1 (no turn yet) or a player's. */
    predicate Valid()
      reads this`width, this`height, this`tiles, this`playerTurn, this`players
    {
      width * height == |tiles| && -1 <= playerTurn < |players|
    }

    /** `game::write()`. */
    function Write(): GameDoc
      reads this`started, this`width, this`height, this`tiles, this`players
    {
      GameDoc(started, width, height, tiles, players)
    }

    /** `game()`: not started, no players, no turn. The constructor leaves the board's
        size uninitialised; here it is 0 by 0. */
    constructor ()
      ensures Valid() && !started && tiles == [] && width == 0 && height == 0
      ensures players == [] && outgoing == [] && state == StateSetup && playerTurn == -1
    {
      started, tiles, width, height := false, [], 0, 0;
      players, outgoing, state, playerTurn := [], [], StateSetup, -1;
    }

    constructor FromNode(started: bool, width: int, height: int, tiles: seq<string>, players: seq<Player>)
      requires width * height == |tiles|
      ensures Valid() && this.started == started && this.width == width && this.height == height
      ensures this.tiles == tiles && this.players == players
      ensures outgoing == [] && state == StateSetup && playerTurn == -1
    {
      this.started, this.tiles, this.width, this.height := started, tiles, width, height;
      this.players, outgoing, state, playerTurn := players, [], StateSetup, -1;
    }

    /** `add_player`. */
    method AddPlayer(name: string)
      requires Valid()
      modifies this`players
      ensures Valid() && players == old(players) + [Player(name, [], [])]
    {
      players := players + [Player(name, [], [])];
    }

    /** `draw_hand(nplayer)`. */
    method DrawHand(p: int)
      requires 0 <= p < |players|
      modifies this`players
      ensures players == old(players)[p := Drawn(old(players)[p])]
      ensures |players| == |old(players)|
    {
      var pl := players[p];
      while pl.deck != [] && |pl.hand| < HandSize
        invariant Drawn(pl) == Drawn(players[p])
        decreases |pl.deck|
      {
        pl := Player(pl.name, pl.deck[..|pl.deck| - 1], pl.hand + [pl.deck[|pl.deck| - 1]]);
      }
      players := players[p := pl];
    }

    /** The "end_turn" message: with discard=yes the hand is emptied first; the player
        draws, the turn passes to the next player (after the last, the first), and the
        game and the new turn's notice are queued. */
    method EndTurn(p: int, discard: bool) returns (ok: bool)
      requires Valid()
      modifies this`players, this`playerTurn, this`outgoing
      ensures Valid()
      ensures ok <==> 0 <= p < |old(players)|
      ensures !ok ==> players == old(players) && playerTurn == old(playerTurn) && outgoing == old(outgoing)
      ensures ok ==> var before := old(players)[p];
                     players == old(players)[p := Drawn(if discard then Player(before.name, before.deck, []) else before)]
      ensures ok ==> playerTurn == (old(playerTurn) + 1) % |players|
      ensures ok ==> outgoing == old(outgoing) + [State(Write()), NewTurn(players[playerTurn].name)]
    {
      if !(0 <= p < |players|) {
        return false;
      }
      if discard {
        players := players[p := Player(players[p].name, players[p].deck, [])];
      }
      DrawHand(p);
      PassTurn();
      ok := true;
    }

    /** The end of "end_turn": the turn passes on and the game and the new turn are queued. */
    method PassTurn()
      requires Valid() && |players| > 0
      modifies this`playerTurn, this`outgoing
      ensures Valid()
      ensures playerTurn == (old(playerTurn) + 1) % |players|
      ensures outgoing == old(outgoing) + [State(Write()), NewTurn(players[playerTurn].name)]
    {
      playerTurn := playerTurn + 1;
      if playerTurn == |players| {
        playerTurn := 0;
      }
      outgoing := outgoing + [State(Write())];
      outgoing := outgoing + [NewTurn(players[playerTurn].name)];
    }

    /** The scan of the hand for the played card. */
    static method FindInHand(hand: seq<CardRef>, id: string) returns (r: Result<Option<nat>>)
      ensures r == FindFrom(hand, id, 0)
    {
      var n := 0;
      while n != |hand|
        invariant 0 <= n <= |hand|
        invariant FindFrom(hand, id, n) == FindFrom(hand, id, 0)
      {
        if hand[n].None? {
          return Fail("null card");
        }
        if hand[n].value == id {
          return Ok(Some(n));
        }
        n := n + 1;
      }
      r := Ok(None);
    }

    /** The land loop of `play_card`: each child overwrites the tile it names. */
    method PlaceAll(lands: seq<BakCards.LandPlace>) returns (ok: bool)
      requires Valid()
      modifies this`tiles
      ensures Valid()
      ensures ok <==> PlaceLands(old(tiles), started, width, height, lands).Ok?
      ensures ok ==> tiles == PlaceLands(old(tiles), started, width, height, lands).value
    {
      var n := 0;
      while n != |lands|
        invariant 0 <= n <= |lands| && |tiles| == |old(tiles)|
        invariant PlaceLands(old(tiles), started, width, height, lands[..n]) == Ok(tiles)
      {
        assert lands[..n + 1][..n] == lands[..n];
        var k := TileIndex(started, width, height, lands[n].loc.x, lands[n].loc.y);
        if k.None? {
          PlaceFailurePersists(old(tiles), started, width, height, lands, n);
          return false;
        }
        tiles := tiles[k.value := lands[n].land];
        n := n + 1;
      }
      assert lands[..n] == lands;
      ok := true;
    }

    /** The "play" message (`play_card`): the first hand card with the played id is
        taken out of the hand (with every null card), the land children are placed, and
        the game is queued. The player must exist and hold the card, and every land
        child must be on the board. */
    method PlayCard(p: int, play: BakCards.Play) returns (ok: bool)
      requires Valid()
      modifies this`players, this`tiles, this`outgoing
      ensures Valid()
      ensures !(0 <= p < |old(players)|) ==> !ok && players == old(players) && tiles == old(tiles)
      ensures 0 <= p < |old(players)| ==>
                var before := old(players)[p];
                var found := FindFrom(before.hand, play.card, 0);
                (found.Fail? ==> !ok && players == old(players) && tiles == old(tiles))
                && (found == Ok(None) ==>
                      !ok && players == old(players)[p := Player(before.name, before.deck, RemoveNulls(before.hand))])
                && (found.Ok? && found.value.Some? ==>
                      players == old(players)[p := Player(before.name, before.deck, RemoveNulls(before.hand[found.value.value := None]))]
                      && (ok <==> PlaceLands(old(tiles), started, width, height, play.lands).Ok?))
      ensures ok ==> tiles == PlaceLands(old(tiles), started, width, height, play.lands).value
                     && outgoing == old(outgoing) + [State(Write())]
    {
      if !(0 <= p < |players|) {
        return false;
      }
      var found := FindInHand(players[p].hand, play.card);
      if found.Fail? {
        return false;
      }
      var hand := players[p].hand;
      if found.value.Some? {
        hand := hand[found.value.value := None];
      }
      players := players[p := Player(players[p].name, players[p].deck, RemoveNulls(hand))];
      if found.value.None? {
        return false;
      }
      ok := PlaceAll(play.lands);
      if ok {
        outgoing := outgoing + [State(Write())];
      }
    }

    /** `setup_game`: a started 15 by 9 board laid out from the eight random picks. */
    method SetupGame(picks: seq<(int, int)>)
      requires ValidPicks(picks) && -1 <= playerTurn < |players|
      modifies this`started, this`width, this`height, this`tiles
      ensures Valid()
      ensures started && width == SetupWidth && height == SetupHeight
      ensures tiles == SetupTiles(TowersOf(SetupWidth, picks))
    {
      started := true;
      width := SetupWidth;
      height := SetupHeight;
      var towers := BuildTowers(picks);
      var board: seq<string> := [];
      var y := 0;
      while y != SetupHeight
        invariant 0 <= y <= SetupHeight && |board| == y * SetupWidth
        invariant forall i :: 0 <= i < |board| ==> board[i] == SetupType(towers, i % SetupWidth, i / SetupWidth)
        invariant started && width == SetupWidth && height == SetupHeight
      {
        board := SetupRow(towers, y, board);
        y := y + 1;
      }
      assert board == SetupTiles(towers);
      tiles := board;
    }

    /** The tower loop of `setup_game`. */
    static method BuildTowers(picks: seq<(int, int)>) returns (towers: seq<(int, int)>)
      ensures towers == TowersOf(SetupWidth, picks)
    {
      towers := [];
      var n := 0;
      while n != |picks|
        invariant 0 <= n <= |picks| && towers == TowersOf(SetupWidth, picks[..n])
      {
        assert picks[..n + 1][..n] == picks[..n];
        towers := towers + [picks[n], (SetupWidth - picks[n].0 - 1, picks[n].1)];
        n := n + 1;
      }
      assert picks[..n] == picks;
    }

    /** One row of the board loop. */
    static method SetupRow(towers: seq<(int, int)>, y: int, board: seq<string>) returns (r: seq<string>)
      requires 0 <= y < SetupHeight && |board| == y * SetupWidth
      ensures |r| == (y + 1) * SetupWidth && r[..|board|] == board
      ensures forall i :: |board| <= i < |r| ==> r[i] == SetupType(towers, i % SetupWidth, i / SetupWidth)
    {
      r := board;
      var x := 0;
      while x != SetupWidth
        invariant 0 <= x <= SetupWidth && |r| == y * SetupWidth + x && r[..|board|] == board
        invariant forall i :: |board| <= i < |r| ==> r[i] == SetupType(towers, i % SetupWidth, i / SetupWidth)
      {
        var kind := if (x, y) in towers then "tower" else "void";
        if y == 4 && (x == 1 || x == 13) {
          kind := "castle";
        }
        r := r + [kind];
        x := x + 1;
      }
    }

    /** The "setup" message: lay out the board, queue the game, then (there must be a
        player) queue the first player's turn and start playing. */
    method HandleSetup(picks: seq<(int, int)>) returns (ok: bool)
      requires Valid() && ValidPicks(picks)
      modifies this`started, this`width, this`height, this`tiles, this`outgoing, this`state, this`playerTurn
      ensures Valid()
      ensures started && width == SetupWidth && height == SetupHeight
      ensures tiles == SetupTiles(TowersOf(SetupWidth, picks))
      ensures ok <==> |players| >= 1
      ensures !ok ==> outgoing == old(outgoing) + [State(Write())]
      ensures ok ==> outgoing == old(outgoing) + [State(Write()), NewTurn(players[0].name)]
                     && state == StatePlaying && playerTurn == 0
    {
      SetupGame(picks);
      outgoing := outgoing + [State(Write())];
      if |players| < 1 {
        return false;
      }
      outgoing := outgoing + [NewTurn(players[0].name)];
      state := StatePlaying;
      playerTurn := 0;
      ok := true;
    }

    /** The "deck" message: the player's deck becomes the cards read from the message,
        shuffled (`shuffled` is `random_shuffle`'s order of them); the player draws and
        the game is queued. */
    method HandleDeck(p: int, cards: string, known: set<string>, shuffled: seq<CardRef>) returns (ok: bool)
      requires Valid()
      requires BakCards.ReadItems(Text.Split(cards, ','), known).Ok? ==>
                 multiset(shuffled) == multiset(BakCards.ReadItems(Text.Split(cards, ','), known).value)
      modifies this`players, this`outgoing
      ensures Valid()
      ensures ok <==> 0 <= p < |old(players)| && BakCards.ReadItems(Text.Split(cards, ','), known).Ok?
      ensures !ok ==> players == old(players) && outgoing == old(outgoing)
      ensures ok ==> players == old(players)[p := Drawn(Player(old(players)[p].name, shuffled, old(players)[p].hand))]
                     && outgoing == old(outgoing) + [State(Write())]
    {
      if !(0 <= p < |players|) {
        return false;
      }
      var deck := BakCards.ReadDeck(cards, known);
      if deck.Fail? {
        return false;
      }
      players := players[p := Player(players[p].name, shuffled, players[p].hand)];
      DrawHand(p);
      outgoing := outgoing + [State(Write())];
      ok := true;
    }
  }

  lemma {:induction false} PlaceFailurePersists(tiles: seq<string>, started: bool, width: int, height: int,
                                                lands: seq<BakCards.LandPlace>, n: nat)
    requires width * height == |tiles| && n < |lands|
    requires PlaceLands(tiles, started, width, height, lands[..n]).Ok?
    requires Target(started, width, height, lands[n]).None?
    ensures PlaceLands(tiles, started, width, height, lands).Fail?
  {
    PlaceLandsOk(tiles, started, width, height, lands);
    PlaceLandsOk(tiles, started, width, height, lands[..n]);
  }

  /** `game(node)`: the board's size and its comma-separated tiles, which must number
      width times height, and the players with their decks and hands; the game is not
      started by default and has no turn yet. `known` is the card file's ids. Cities
      are not part of this model. */
  method Load(attrs: Wml.Attrs, playerNodes: seq<Wml.Attrs>, known: set<string>) returns (r: Result<Game>)
    ensures r.Ok? <==>
              Wml.GetInt(attrs, "width", 0) * Wml.GetInt(attrs, "height", 0) == |Text.Split(Wml.Attr(attrs, "tiles"), ',')|
              && LoadedPlayers(playerNodes, known).Ok?
    ensures r.Ok? ==> fresh(r.value) && r.value.Valid()
                      && r.value.started == Wml.GetBool(attrs, "started", false)
                      && r.value.width == Wml.GetInt(attrs, "width", 0) && r.value.height == Wml.GetInt(attrs, "height", 0)
                      && r.value.tiles == Text.Split(Wml.Attr(attrs, "tiles"), ',')
                      && r.value.players == LoadedPlayers(playerNodes, known).value
                      && r.value.playerTurn == -1 && r.value.outgoing == []
  {
    var width := Wml.GetInt(attrs, "width", 0);
    var height := Wml.GetInt(attrs, "height", 0);
    var v := Text.Split(Wml.Attr(attrs, "tiles"), ',');
    if width == 0 && |v| > 0 {
      return Fail("division by zero");
    }
    if width * height != |v| {
      return Fail("ASSERT_EQ(width*height, tiles.size())");
    }
    var players := LoadPlayers(playerNodes, known);
    if players.Fail? {
      return Fail(players.reason);
    }
    var g := new Game.FromNode(Wml.GetBool(attrs, "started", false), width, height, v, players.value);
    r := Ok(g);
  }
}
