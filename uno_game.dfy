/** The server-side UNO game of `hyo-server/src/uno/game.rs`: players holding hands
    of cards, the draw and discard piles, whose turn it is and in which direction
    play goes. */
module UnoGame {
  import opened Common
  import opened UnoCard
  import opened UnoDeck

  /** Cards dealt to every player (`for _ in 0..=7`). */
  const HandSize: nat := 8

  /** Deck cards asked of `build_dynamic_deck` per player. */
  const CardsPerPlayer: nat := 20

  /** `s` without its element at `i`, the rest in order: `Vec::remove`. */
  function Without(s: seq<Card>, i: nat): (r: seq<Card>)
    requires i < |s|
    ensures |r| == |s| - 1
    ensures forall j :: 0 <= j < i ==> r[j] == s[j]
    ensures forall j :: i <= j < |r| ==> r[j] == s[j + 1]
  {
    s[..i] + s[i + 1..]
  }

  /** Removing an element loses exactly that one card. */
  lemma WithoutMultiset(s: seq<Card>, i: nat)
    requires i < |s|
    ensures multiset(Without(s, i)) + multiset{s[i]} == multiset(s)
  {
    assert s == s[..i] + [s[i]] + s[i + 1..];
  }

  /** A non-empty pile is what lies below its top card, then the top card. */
  lemma LastSplit(s: seq<Card>)
    requires s != []
    ensures s == s[..|s| - 1] + [s[|s| - 1]]
  {
  }

  /** A `Player`: its id and the cards in its hand. A game owns its players by
      value (a `Vec<Player>`), so a player is a value here and the game writes the
      updated player back into its seat. */
  datatype Player = Player(id: Uuid, hand: seq<Card>)
  {
    /** `Player::add_card`: the card goes to the end of the hand; the second
        component is its index. */
    function AddCard(card: Card): (r: (Player, nat))
      ensures r.0.id == id && r.0.hand == hand + [card]
      ensures r.1 == |hand| && r.0.hand[r.1] == card
      ensures multiset(r.0.hand) == multiset(hand) + multiset{card}
    {
      (Player(id, hand + [card]), |hand|)
    }

    /** `Player::remove_card`: `None` and no change when the index is past the
        hand; otherwise the card, which leaves the hand while the other cards
        keep their order. */
    function RemoveCard(index: nat): (r: (Player, Option<Card>))
      ensures index >= |hand| ==> r == (this, None)
      ensures index < |hand| ==>
                && r.1 == Some(hand[index])
                && r.0.id == id && r.0.hand == Without(hand, index)
                && multiset(r.0.hand) + multiset{hand[index]} == multiset(hand)
    {
      if index >= |hand| then (this, None)
      else
        WithoutMultiset(hand, index);
        (Player(id, Without(hand, index)), Some(hand[index]))
    }
  }

  /** `Player::empty`. */
  function EmptyPlayer(id: Uuid): (r: Player)
    ensures r.id == id && r.hand == []
  {
    Player(id, [])
  }

  /** `TurnState`: whether the current player may play or draw, or has just drawn
      the playable card at the given index of their hand. */
  datatype TurnState = PlayOrDraw | PlayDrawn(index: nat)

  /** All cards in all hands of `ps`. */
  function HandCards(ps: seq<Player>): multiset<Card> {
    if ps == [] then multiset{} else HandCards(ps[..|ps| - 1]) + multiset(ps[|ps| - 1].hand)
  }

  /** Replacing one player changes the cards in hand by exactly the difference
      between the old and the new hand. */
  lemma {:induction false} HandCardsUpdate(ps: seq<Player>, i: nat, p: Player)
    requires i < |ps|
    ensures HandCards(ps[i := p]) + multiset(ps[i].hand) == HandCards(ps) + multiset(p.hand)
  {
    var n, ps' := |ps|, ps[i := p];
    var init, init' := ps[..n - 1], ps'[..n - 1];
    assert HandCards(ps) == HandCards(init) + multiset(ps[n - 1].hand);
    assert HandCards(ps') == HandCards(init') + multiset(ps'[n - 1].hand);
    if i == n - 1 {
      assert init' == init;
      var a, b, c := HandCards(init), multiset(p.hand), multiset(ps[i].hand);
      assert a + b + c == a + c + b;
    } else {
      assert init' == init[i := p];
      HandCardsUpdate(init, i, p);
      var a, a', b, c, d :=
        HandCards(init), HandCards(init'), multiset(p.hand), multiset(ps[i].hand), multiset(ps[n - 1].hand);
      assert a' + c == a + b;
      forall x ensures (a' + d + c)[x] == (a + d + b)[x] {
        assert (a' + c)[x] == (a + b)[x];
      }
      assert a' + d + c == a + d + b;
    }
  }

  /** Players with empty hands hold no cards. */
  lemma {:induction false} HandCardsEmpty(ps: seq<Player>)
    requires forall i :: 0 <= i < |ps| ==> ps[i].hand == []
    ensures HandCards(ps) == multiset{}
  {
    if ps != [] {
      HandCardsEmpty(ps[..|ps| - 1]);
    }
  }

  /** Replacing a player by one holding the same cards keeps the cards in hand. */
  lemma HandCardsSame(ps: seq<Player>, i: nat, p: Player)
    requires i < |ps| && multiset(p.hand) == multiset(ps[i].hand)
    ensures HandCards(ps[i := p]) == HandCards(ps)
  {
    HandCardsUpdate(ps, i, p);
    var a, a' := HandCards(ps), HandCards(ps[i := p]);
    forall x ensures a'[x] == a[x] {
      assert (a' + multiset(ps[i].hand))[x] == (a + multiset(p.hand))[x];
    }
  }

  /** Card conservation when player `i` plays card `j` of their hand onto the
      discard pile `p`, the draw pile `d` untouched. */
  lemma PlayConserves(d: seq<Card>, p: seq<Card>, ps: seq<Player>, i: nat, j: nat)
    requires i < |ps| && j < |ps[i].hand|
    ensures multiset(d) + multiset(p + [ps[i].hand[j]]) + HandCards(ps[i := ps[i].RemoveCard(j).0]) ==
            multiset(d) + multiset(p) + HandCards(ps)
  {
    var q, card := ps[i].RemoveCard(j).0, ps[i].hand[j];
    HandCardsUpdate(ps, i, q);
    HandGains(multiset(q.hand), multiset(ps[i].hand), HandCards(ps[i := q]), HandCards(ps), multiset{card});
    var a, a' := HandCards(ps), HandCards(ps[i := q]);
    assert multiset(p + [card]) == multiset(p) + multiset{card};
    forall x ensures (multiset(d) + multiset(p + [card]) + a')[x] == (multiset(d) + multiset(p) + a)[x] {
    }
  }

  /** Card conservation when player `i` takes the top of the draw pile `d` onto
      their hand, the discard pile `p` untouched. */
  lemma DrawConserves(d: seq<Card>, p: seq<Card>, ps: seq<Player>, i: nat)
    requires i < |ps| && d != []
    ensures multiset(d[..|d| - 1]) + multiset(p) + HandCards(ps[i := ps[i].AddCard(d[|d| - 1]).0]) ==
            multiset(d) + multiset(p) + HandCards(ps)
  {
    var card, rest := d[|d| - 1], d[..|d| - 1];
    var q := ps[i].AddCard(card).0;
    LastSplit(d);
    HandCardsUpdate(ps, i, q);
    HandGains(multiset(ps[i].hand), multiset(q.hand), HandCards(ps), HandCards(ps[i := q]), multiset{card});
    var a, a' := HandCards(ps), HandCards(ps[i := q]);
    assert multiset(d) == multiset(rest) + multiset{card};
    forall x ensures (multiset(rest) + multiset(p) + a')[x] == (multiset(d) + multiset(p) + a)[x] {
    }
  }

  /** Replacing a hand by one with the cards `moved` added, while the other
      hands stay, adds exactly `moved` to the cards in hand. */
  lemma HandGains(hand: multiset<Card>, hand': multiset<Card>, held: multiset<Card>,
                  held': multiset<Card>, moved: multiset<Card>)
    requires hand' == hand + moved && held' + hand == held + hand'
    ensures held' == held + moved
  {
    forall x ensures held'[x] == (held + moved)[x] {
      assert (held' + hand)[x] == (held + hand')[x];
    }
  }

  /** The seat after `i` among `n` seats in the direction of play, wrapping around
      at both ends (`rem_euclid`). */
  function NextIndex(i: nat, n: nat, forward: bool): (r: nat)
    requires n > 0
    ensures r < n
    ensures forward && i + 1 < n ==> r == i + 1
    ensures forward && i + 1 == n ==> r == 0
    ensures !forward && 0 < i <= n ==> r == i - 1
    ensures !forward && i == 0 ==> r == n - 1
  {
    var k := i + (if forward then 1 else -1);
    RemEuclidStep(k, n);
    k % n
  }

  /** `rem_euclid` one step past either end of `0..n`. */
  lemma RemEuclidStep(k: int, n: nat)
    requires n > 0
    ensures 0 <= k < n ==> k % n == k
    ensures k == n ==> k % n == 0
    ensures k == -1 ==> k % n == n - 1
  {
    if 0 <= k < n {
      ModUnique(k, n, 0, k);
    } else if k == n {
      ModUnique(k, n, 1, 0);
    } else if k == -1 {
      ModUnique(k, n, -1, n - 1);
    }
  }

  /** Passing the turn one seat forward and one seat back returns it to its owner. */
  lemma NextIndexInverse(i: nat, n: nat)
    requires i < n
    ensures NextIndex(NextIndex(i, n, true), n, false) == i
    ensures NextIndex(NextIndex(i, n, false), n, true) == i
  {
  }

  /** A dynamic deck for `n` players always has enough cards to deal every hand
      and turn up the first discard, so `create` never pops an empty pile. */
  lemma DealingFits(n: nat)
    ensures Max(DefaultDeckSize, n * CardsPerPlayer) >= n * HandSize + 1
  {
  }

  /** The state of a `Game`: the draw pile (its top is the last card), the
      discard pile (its top is the last card), the players in seat order, whose
      turn it is, the direction of play and the turn state. */
  datatype GameState = GameState(
    drawPile: seq<Card>,
    discardPile: seq<Card>,
    players: seq<Player>,
    currentPlayerIndex: nat,
    dirForward: bool,
    turnState: TurnState)

  /** Every card in a game: the draw pile, the discard pile and all hands. */
  ghost function AllCards(g: GameState): multiset<Card> {
    multiset(g.drawPile) + multiset(g.discardPile) + HandCards(g.players)
  }

  /** What every operation keeps: there is a card to play on, the current index
      names a player (with no players it stays 0), and a drawn card waiting to be
      played is the last card of the current hand and is playable on the top
      card. */
  ghost predicate ValidState(g: GameState) {
    && |g.discardPile| > 0
    && (if |g.players| == 0
        then g.currentPlayerIndex == 0 && g.turnState == PlayOrDraw
        else g.currentPlayerIndex < |g.players|)
    && (g.turnState.PlayDrawn? ==>
          && |g.players| > 0
          && g.turnState.index + 1 == |g.players[g.currentPlayerIndex].hand|
          && PlayableOn(g.players[g.currentPlayerIndex].hand[g.turnState.index],
                        g.discardPile[|g.discardPile| - 1]))
  }

  /** `Game::current_card`: the top of the discard pile. */
  function TopCard(discard: seq<Card>): (r: Card)
    requires |discard| > 0
    ensures r in discard
    ensures multiset(discard) == multiset(discard[..|discard| - 1]) + multiset{r}
  {
    LastSplit(discard);
    discard[|discard| - 1]
  }

  /** `Game::advance`: the turn passes one seat in the direction of play and the
      turn state is reset; nothing else changes. */
  function AdvanceStep(g: GameState): (r: GameState)
    requires |g.players| > 0
    ensures r.currentPlayerIndex < |r.players| && r.turnState == PlayOrDraw
    ensures r.currentPlayerIndex == NextIndex(g.currentPlayerIndex, |g.players|, g.dirForward)
    ensures r == g.(currentPlayerIndex := r.currentPlayerIndex, turnState := PlayOrDraw)
  {
    g.(currentPlayerIndex := NextIndex(g.currentPlayerIndex, |g.players|, g.dirForward),
       turnState := PlayOrDraw)
  }

  /** `Game::play_card`: the current player plays the card at `index`. Refused
      when a drawn card is pending or the index is past the hand. A card that is
      not playable on the top card goes back to the END of the hand; a playable
      one goes on the discard pile and the turn passes. */
  function PlayCardStep(g: GameState, index: nat): (r: (GameState, bool))
    requires g.turnState == PlayOrDraw ==>
               |g.discardPile| > 0 && g.currentPlayerIndex < |g.players|
    ensures r.1 <==> && g.turnState == PlayOrDraw
                     && index < |g.players[g.currentPlayerIndex].hand|
                     && PlayableOn(g.players[g.currentPlayerIndex].hand[index],
                                   TopCard(g.discardPile))
  {
    if !g.turnState.PlayOrDraw? then (g, false)
    else
      var top, cur := TopCard(g.discardPile), g.currentPlayerIndex;
      var removal := g.players[cur].RemoveCard(index);
      if removal.1.None? then (g, false)
      else
        var card, g' := removal.1.value, g.(players := g.players[cur := removal.0]);
        if PlayableOn(card, top) then
          (AdvanceStep(g'.(discardPile := g.discardPile + [card])), true)
        else
          (g'.(players := g'.players[cur := removal.0.AddCard(card).0]), false)
  }

  /** `Game::draw_card`: the current player takes the top card of the draw pile
      onto the end of their hand. Refused when a drawn card is pending or the
      draw pile is empty. A playable card becomes the pending drawn card; any
      other card passes the turn. */
  function DrawCardStep(g: GameState): (r: (GameState, bool))
    requires g.turnState == PlayOrDraw && g.drawPile != [] ==>
               |g.discardPile| > 0 && g.currentPlayerIndex < |g.players|
    ensures r.1 <==> g.turnState == PlayOrDraw && g.drawPile != []
    ensures !r.1 ==> r.0 == g
  {
    if !g.turnState.PlayOrDraw? || g.drawPile == [] then (g, false)
    else
      var card, cur := g.drawPile[|g.drawPile| - 1], g.currentPlayerIndex;
      var canPlay := PlayableOn(card, TopCard(g.discardPile));
      var added := g.players[cur].AddCard(card);
      var g' := g.(drawPile := g.drawPile[..|g.drawPile| - 1],
                   players := g.players[cur := added.0]);
      if canPlay then (g'.(turnState := PlayDrawn(added.1)), true)
      else (AdvanceStep(g'), true)
  }

  /** `Game::play_drawn_card`: settles a pending drawn card, playing it onto the
      discard pile when `play` is set and keeping it otherwise; either way the
      turn passes. Refused when no drawn card is pending. The source unwraps the
      removal, so the pending index must lie in the hand. */
  function PlayDrawnCardStep(g: GameState, play: bool): (r: (GameState, bool))
    requires g.turnState.PlayDrawn? ==>
               && g.currentPlayerIndex < |g.players|
               && (play ==> g.turnState.index < |g.players[g.currentPlayerIndex].hand|)
    ensures r.1 <==> g.turnState.PlayDrawn?
    ensures !r.1 ==> r.0 == g
    ensures r.1 ==> r.0.turnState == PlayOrDraw && r.0.drawPile == g.drawPile
  {
    if !g.turnState.PlayDrawn? then (g, false)
    else
      var cardIndex, cur := g.turnState.index, g.currentPlayerIndex;
      if play then
        var removal := g.players[cur].RemoveCard(cardIndex);
        (AdvanceStep(g.(players := g.players[cur := removal.0],
                    discardPile := g.discardPile + [removal.1.value])), true)
      else
        (AdvanceStep(g), true)
  }

  /** Passing the turn keeps a game valid and its cards. */
  lemma AdvanceKeeps(g: GameState)
    requires |g.discardPile| > 0 && |g.players| > 0
    ensures ValidState(AdvanceStep(g)) && AllCards(AdvanceStep(g)) == AllCards(g)
  {
  }

  /** `play_card` keeps a valid game valid and moves cards without creating or
      losing any. */
  lemma PlayCardKeeps(g: GameState, index: nat)
    requires ValidState(g) && |g.players| > 0
    ensures ValidState(PlayCardStep(g, index).0)
    ensures AllCards(PlayCardStep(g, index).0) == AllCards(g)
  {
    var cur := g.currentPlayerIndex;
    var hand := g.players[cur].hand;
    if g.turnState.PlayOrDraw? && index < |hand| {
      var removal := g.players[cur].RemoveCard(index);
      var card, ps := hand[index], g.players[cur := removal.0];
      if PlayableOn(card, TopCard(g.discardPile)) {
        var g' := g.(players := ps, discardPile := g.discardPile + [card]);
        assert PlayCardStep(g, index).0 == AdvanceStep(g');
        PlayConserves(g.drawPile, g.discardPile, g.players, cur, index);
        AdvanceKeeps(g');
      } else {
        var back := removal.0.AddCard(card).0;
        assert PlayCardStep(g, index).0 == g.(players := ps[cur := back]);
        assert ps[cur := back] == g.players[cur := back];
        ReturnKeeps(hand, index);
        HandCardsSame(g.players, cur, back);
      }
    }
  }

  /** What `play_card` does to the cards: a played card leaves the current hand,
      the other cards keeping their order, and becomes the top of the discard
      pile; a card refused for not being playable moves to the end of the hand;
      a refused index changes nothing. The draw pile is never touched. */
  lemma PlayCardMoves(g: GameState, index: nat)
    requires ValidState(g) && |g.players| > 0
    ensures var (g', ok) := PlayCardStep(g, index);
            var cur, hand := g.currentPlayerIndex, g.players[g.currentPlayerIndex].hand;
            && g'.drawPile == g.drawPile && g'.dirForward == g.dirForward
            && (ok ==>
                  && g'.discardPile == g.discardPile + [hand[index]]
                  && g'.players == g.players[cur := Player(g.players[cur].id, Without(hand, index))]
                  && g'.currentPlayerIndex == NextIndex(cur, |g.players|, g.dirForward)
                  && g'.turnState == PlayOrDraw)
            && (!ok && g.turnState == PlayOrDraw && index < |hand| ==>
                  && g'.discardPile == g.discardPile && g'.currentPlayerIndex == cur
                  && g'.players ==
                       g.players[cur := Player(g.players[cur].id, Without(hand, index) + [hand[index]])])
            && (!(g.turnState == PlayOrDraw && index < |hand|) ==> g' == g)
  {
  }

  /** `draw_card` keeps a valid game valid and moves one card from the draw
      pile to a hand without creating or losing any. */
  lemma DrawCardKeeps(g: GameState)
    requires ValidState(g) && (|g.players| > 0 || g.drawPile == [])
    ensures ValidState(DrawCardStep(g).0)
    ensures AllCards(DrawCardStep(g).0) == AllCards(g)
  {
    if g.turnState.PlayOrDraw? && g.drawPile != [] {
      var card, cur := g.drawPile[|g.drawPile| - 1], g.currentPlayerIndex;
      var added := g.players[cur].AddCard(card);
      var g' := g.(drawPile := g.drawPile[..|g.drawPile| - 1],
                   players := g.players[cur := added.0]);
      DrawConserves(g.drawPile, g.discardPile, g.players, cur);
      assert AllCards(g') == AllCards(g);
      if !PlayableOn(card, TopCard(g.discardPile)) {
        AdvanceKeeps(g');
      }
    }
  }

  /** What `draw_card` does when it succeeds: the top of the draw pile goes to
      the end of the current hand; a playable card stays pending with the same
      player, at the index `add_card` returned, anything else passes the turn. */
  lemma DrawCardMoves(g: GameState)
    requires ValidState(g) && |g.players| > 0 && g.turnState == PlayOrDraw && g.drawPile != []
    ensures var (g', ok) := DrawCardStep(g);
            var cur, card := g.currentPlayerIndex, g.drawPile[|g.drawPile| - 1];
            && ok
            && g'.drawPile == g.drawPile[..|g.drawPile| - 1]
            && g'.discardPile == g.discardPile && g'.dirForward == g.dirForward
            && g'.players == g.players[cur := Player(g.players[cur].id, g.players[cur].hand + [card])]
            && (PlayableOn(card, TopCard(g.discardPile)) ==>
                  g'.currentPlayerIndex == cur && g'.turnState == PlayDrawn(|g.players[cur].hand|))
            && (!PlayableOn(card, TopCard(g.discardPile)) ==>
                  g'.currentPlayerIndex == NextIndex(cur, |g.players|, g.dirForward)
                  && g'.turnState == PlayOrDraw)
  {
  }

  /** `play_drawn_card` keeps a valid game valid and its cards. */
  lemma PlayDrawnCardKeeps(g: GameState, play: bool)
    requires ValidState(g)
    ensures ValidState(PlayDrawnCardStep(g, play).0)
    ensures AllCards(PlayDrawnCardStep(g, play).0) == AllCards(g)
  {
    if g.turnState.PlayDrawn? {
      var k, cur := g.turnState.index, g.currentPlayerIndex;
      if play {
        var removal := g.players[cur].RemoveCard(k);
        PlayConserves(g.drawPile, g.discardPile, g.players, cur, k);
        AdvanceKeeps(g.(players := g.players[cur := removal.0],
                        discardPile := g.discardPile + [g.players[cur].hand[k]]));
      } else {
        AdvanceKeeps(g);
      }
    }
  }

  /** Drawing a playable card and then playing it: the card goes from the draw
      pile onto the discard pile, the player's hand is as before the draw, and
      the turn passes. */
  lemma DrawThenPlay(g: GameState)
    requires ValidState(g) && |g.players| > 0 && g.turnState == PlayOrDraw && g.drawPile != []
    requires PlayableOn(g.drawPile[|g.drawPile| - 1], TopCard(g.discardPile))
    ensures var (g', ok) := PlayDrawnCardStep(DrawCardStep(g).0, true);
            && ok
            && g'.drawPile == g.drawPile[..|g.drawPile| - 1]
            && g'.discardPile == g.discardPile + [g.drawPile[|g.drawPile| - 1]]
            && g'.players == g.players
            && g'.currentPlayerIndex == NextIndex(g.currentPlayerIndex, |g.players|, g.dirForward)
            && g'.turnState == PlayOrDraw && g'.dirForward == g.dirForward
  {
    var cur, card := g.currentPlayerIndex, g.drawPile[|g.drawPile| - 1];
    var hand := g.players[cur].hand;
    DrawCardMoves(g);
    assert Without(hand + [card], |hand|) == hand;
    assert g.players[cur := Player(g.players[cur].id, hand)] == g.players;
  }

  /** Drawing a playable card and then keeping it: the card ends up at the end
      of the hand and the turn passes, just as when an unplayable card is drawn. */
  lemma DrawThenKeep(g: GameState)
    requires ValidState(g) && |g.players| > 0 && g.turnState == PlayOrDraw && g.drawPile != []
    requires PlayableOn(g.drawPile[|g.drawPile| - 1], TopCard(g.discardPile))
    ensures var (g', ok) := PlayDrawnCardStep(DrawCardStep(g).0, false);
            var cur := g.currentPlayerIndex;
            && ok
            && g'.drawPile == g.drawPile[..|g.drawPile| - 1]
            && g'.discardPile == g.discardPile
            && g'.players ==
                 g.players[cur := Player(g.players[cur].id,
                                         g.players[cur].hand + [g.drawPile[|g.drawPile| - 1]])]
            && g'.currentPlayerIndex == NextIndex(cur, |g.players|, g.dirForward)
            && g'.turnState == PlayOrDraw && g'.dirForward == g.dirForward
  {
    DrawCardMoves(g);
  }

  /** The `Game` struct, updated in place by its methods exactly as the step
      functions above say. */
  class Game {
    var drawPile: seq<Card>
    var discardPile: seq<Card>
    var players: seq<Player>
    var currentPlayerIndex: nat
    var dirForward: bool
    var turnState: TurnState

    /** The fields as a value. */
    ghost function State(): GameState
      reads this
    {
      GameState(drawPile, discardPile, players, currentPlayerIndex, dirForward, turnState)
    }

    /** Every card in the game. */
    ghost function Cards(): multiset<Card>
      reads this
    {
      AllCards(State())
    }

    ghost predicate Valid()
      reads this
    {
      ValidState(State())
    }

    /** `Game::create`: one player per id, a dynamic deck of 20 cards per player
        shuffled, eight cards dealt to each player in seat order, then one card
        turned up; the first player starts, playing forward. */
    constructor Create(playerIds: seq<Uuid>)
      ensures Valid()
      ensures |players| == |playerIds|
      ensures forall i :: 0 <= i < |players| ==>
                players[i].id == playerIds[i] && |players[i].hand| == HandSize
      ensures |discardPile| == 1
      ensures |drawPile| ==
                Max(DefaultDeckSize, |playerIds| * CardsPerPlayer) - |playerIds| * HandSize - 1
      ensures Cards() == multiset(DynamicDeck(|playerIds| * CardsPerPlayer))
      ensures currentPlayerIndex == 0 && dirForward && turnState == PlayOrDraw
    {
      var ps, draw, top := DealGame(playerIds);
      drawPile := draw;
      discardPile := [top];
      players := ps;
      currentPlayerIndex := 0;
      dirForward := true;
      turnState := PlayOrDraw;
    }

    /** `Game::current_card`. */
    function CurrentCard(): (r: Card)
      reads this
      requires |discardPile| > 0
      ensures r == TopCard(discardPile)
    {
      discardPile[|discardPile| - 1]
    }

    /** `Game::advance`, in place. */
    method Advance()
      requires |players| > 0
      modifies this
      ensures State() == AdvanceStep(old(State()))
    {
      currentPlayerIndex := NextIndex(currentPlayerIndex, |players|, dirForward);
      turnState := PlayOrDraw;
    }

    /** `Game::play_card`, in place. */
    method PlayCard(index: nat) returns (ok: bool)
      requires Valid() && |players| > 0
      modifies this
      ensures (State(), ok) == PlayCardStep(old(State()), index)
      ensures Valid()
    {
      PlayCardKeeps(State(), index);
      if !turnState.PlayOrDraw? {
        return false;
      }
      var top := CurrentCard();
      var cur := currentPlayerIndex;
      var removal := players[cur].RemoveCard(index);
      if removal.1.None? {
        return false;
      }
      var card := removal.1.value;
      players := players[cur := removal.0];
      if PlayableOn(card, top) {
        discardPile := discardPile + [card];
        Advance();
        ok := true;
      } else {
        players := players[cur := removal.0.AddCard(card).0];
        ok := false;
      }
    }

    /** `Game::draw_card`, in place. */
    method DrawCard() returns (ok: bool)
      requires Valid() && (|players| > 0 || drawPile == [])
      modifies this
      ensures (State(), ok) == DrawCardStep(old(State()))
      ensures Valid()
    {
      ghost var before := State();
      if !turnState.PlayOrDraw? || drawPile == [] {
        DrawCardKeeps(before);
        return false;
      }
      var card, cur := drawPile[|drawPile| - 1], currentPlayerIndex;
      var canPlay := PlayableOn(card, CurrentCard());
      var added := players[cur].AddCard(card);
      drawPile, players := drawPile[..|drawPile| - 1], players[cur := added.0];
      if canPlay {
        turnState := PlayDrawn(added.1);
      } else {
        Advance();
      }
      ok := true;
      DrawCardKeeps(before);
    }

    /** `Game::play_drawn_card`, in place. */
    method PlayDrawnCard(play: bool) returns (ok: bool)
      requires Valid()
      modifies this
      ensures (State(), ok) == PlayDrawnCardStep(old(State()), play)
      ensures Valid()
    {
      PlayDrawnCardKeeps(State(), play);
      if !turnState.PlayDrawn? {
        return false;
      }
      var cardIndex := turnState.index;
      if play {
        var cur := currentPlayerIndex;
        var removal := players[cur].RemoveCard(cardIndex);
        players := players[cur := removal.0];
        discardPile := discardPile + [removal.1.value];
      }
      Advance();
      ok := true;
    }
  }

  /** A card taken out and put back at the end leaves the hand's cards as they were. */
  lemma ReturnKeeps(h: seq<Card>, i: nat)
    requires i < |h|
    ensures multiset(Without(h, i) + [h[i]]) == multiset(h)
  {
    WithoutMultiset(h, i);
  }

  /** Lines 142-153 of `Game::create`: the players, the dealt hands, the rest
      of the shuffled deck and the card turned up. */
  method DealGame(ids: seq<Uuid>) returns (ps: seq<Player>, draw: seq<Card>, top: Card)
    ensures |ps| == |ids|
    ensures forall i :: 0 <= i < |ps| ==> ps[i].id == ids[i] && |ps[i].hand| == HandSize
    ensures |draw| == Max(DefaultDeckSize, |ids| * CardsPerPlayer) - |ids| * HandSize - 1
    ensures multiset(draw) + multiset([top]) + HandCards(ps) ==
            multiset(DynamicDeck(|ids| * CardsPerPlayer))
  {
    var empty := MakePlayers(ids);
    var deck := ShuffledDeck(|ids|);
    DealingFits(|ids|);
    var pile;
    ps, pile := DealAll(empty, deck);
    TurnUpConserves(pile, HandCards(ps));
    draw, top := pile[..|pile| - 1], pile[|pile| - 1];
  }

  /** Lines 143-144 of `Game::create`: the dynamic deck for `players` players,
      in an arbitrary order standing for the random shuffle. */
  method ShuffledDeck(players: nat) returns (deck: seq<Card>)
    ensures |deck| == Max(DefaultDeckSize, players * CardsPerPlayer)
    ensures multiset(deck) == multiset(DynamicDeck(players * CardsPerPlayer))
  {
    var built := BuildDynamicDeck(players * CardsPerPlayer);
    deck :| multiset(deck) == multiset(built);
  }

  /** Turning up the top card moves it from the pile to the discard pile. */
  lemma TurnUpConserves(pile: seq<Card>, hands: multiset<Card>)
    requires pile != []
    ensures multiset(pile[..|pile| - 1]) + multiset([pile[|pile| - 1]]) + hands ==
            multiset(pile) + hands
  {
    LastSplit(pile);
  }

  /** `player_ids.map(Player::empty).collect()`: one empty player per id, in order. */
  method MakePlayers(ids: seq<Uuid>) returns (ps: seq<Player>)
    ensures |ps| == |ids|
    ensures forall i :: 0 <= i < |ps| ==> ps[i] == Player(ids[i], [])
  {
    ps := [];
    for k := 0 to |ids|
      invariant |ps| == k
      invariant forall i :: 0 <= i < k ==> ps[i] == Player(ids[i], [])
    {
      ps := ps + [EmptyPlayer(ids[k])];
    }
  }

  /** The dealing loop of `Game::create`: every player in seat order pops eight
      cards off the top of the pile into their hand. */
  method DealAll(ps: seq<Player>, pile: seq<Card>) returns (dealt: seq<Player>, rest: seq<Card>)
    requires |pile| >= |ps| * HandSize
    requires forall i :: 0 <= i < |ps| ==> ps[i].hand == []
    ensures |dealt| == |ps| && |rest| == |pile| - |ps| * HandSize
    ensures forall i :: 0 <= i < |ps| ==> dealt[i].id == ps[i].id && |dealt[i].hand| == HandSize
    ensures rest == pile[..|pile| - |ps| * HandSize]
    ensures multiset(rest) + HandCards(dealt) == multiset(pile)
  {
    dealt, rest := ps, pile;
    HandCardsEmpty(ps);
    for k := 0 to |ps|
      invariant |dealt| == |ps|
      invariant forall i :: 0 <= i < |ps| ==> dealt[i].id == ps[i].id
      invariant forall i :: 0 <= i < k ==> |dealt[i].hand| == HandSize
      invariant forall i :: k <= i < |ps| ==> dealt[i].hand == []
      invariant rest == pile[..|pile| - k * HandSize]
      invariant multiset(rest) + HandCards(dealt) == multiset(pile)
    {
      DealSlices(pile, k);
      dealt, rest := DealTo(dealt, rest, k);
    }
  }

  /** One turn of the dealing loop: player `k` is dealt a hand off `rest`. */
  method DealTo(ps: seq<Player>, rest: seq<Card>, k: nat) returns (ps': seq<Player>, rest': seq<Card>)
    requires k < |ps| && |rest| >= HandSize
    ensures |ps'| == |ps| && rest' == rest[..|rest| - HandSize]
    ensures forall i :: 0 <= i < |ps| && i != k ==> ps'[i] == ps[i]
    ensures ps'[k].id == ps[k].id && |ps'[k].hand| == |ps[k].hand| + HandSize
    ensures multiset(rest') + HandCards(ps') == multiset(rest) + HandCards(ps)
  {
    var p;
    p, rest' := DealHand(ps[k], rest);
    DealConserves(rest, ps, k, p);
    ps' := ps[k := p];
  }

  /** What is left once `k + 1` hands are dealt off `pile`. */
  lemma DealSlices(pile: seq<Card>, k: nat)
    requires (k + 1) * HandSize <= |pile|
    ensures pile[..|pile| - k * HandSize][..|pile| - k * HandSize - HandSize] ==
            pile[..|pile| - (k + 1) * HandSize]
  {
  }

  /** Dealing eight cards off `rest` to player `k` keeps the cards together. */
  lemma DealConserves(rest: seq<Card>, ps: seq<Player>, k: nat, p: Player)
    requires k < |ps| && |rest| >= HandSize
    requires p.hand == ps[k].hand + Popped(rest, HandSize)
    ensures multiset(rest[..|rest| - HandSize]) + HandCards(ps[k := p]) ==
            multiset(rest) + HandCards(ps)
  {
    var top := Popped(rest, HandSize);
    PoppedSplit(rest, HandSize);
    HandCardsUpdate(ps, k, p);
    HandGains(multiset(ps[k].hand), multiset(p.hand), HandCards(ps), HandCards(ps[k := p]), multiset(top));
    var below, held := multiset(rest[..|rest| - HandSize]), HandCards(ps);
    forall x ensures (below + (held + multiset(top)))[x] == (below + multiset(top) + held)[x] {
    }
  }

  /** The pile is what is left below the popped cards, and the popped cards. */
  lemma PoppedSplit(pile: seq<Card>, n: nat)
    requires n <= |pile|
    ensures multiset(pile[..|pile| - n]) + multiset(Popped(pile, n)) == multiset(pile)
  {
    PoppedMultiset(pile, n);
    assert pile == pile[..|pile| - n] + pile[|pile| - n..];
  }

  /** The cards that `n` pops off `pile` hand out, in the order they come: the
      top card first. */
  function Popped(pile: seq<Card>, n: nat): (r: seq<Card>)
    requires n <= |pile|
    ensures |r| == n
    ensures forall i :: 0 <= i < n ==> r[i] == pile[|pile| - 1 - i]
  {
    if n == 0 then [] else Popped(pile, n - 1) + [pile[|pile| - n]]
  }

  /** The popped cards are the top `n` cards of the pile. */
  lemma PoppedMultiset(pile: seq<Card>, n: nat)
    requires n <= |pile|
    ensures multiset(Popped(pile, n)) == multiset(pile[|pile| - n..])
  {
    var top := pile[|pile| - n..];
    forall i | 0 <= i < n
      ensures Popped(pile, n)[i] == Reversed(top)[i]
    {
      ReversedAt(top, i);
    }
    assert Popped(pile, n) == Reversed(top);
    ReversedMultiset(top);
  }

  /** The inner dealing loop: one player pops eight cards, one at a time. */
  method DealHand(player: Player, pile: seq<Card>) returns (dealt: Player, rest: seq<Card>)
    requires |pile| >= HandSize
    ensures dealt.id == player.id && |dealt.hand| == |player.hand| + HandSize
    ensures dealt.hand == player.hand + Popped(pile, HandSize)
    ensures rest == pile[..|pile| - HandSize]
  {
    dealt, rest := player, pile;
    for j := 0 to HandSize
      invariant dealt.id == player.id
      invariant rest == pile[..|pile| - j]
      invariant dealt.hand == player.hand + Popped(pile, j)
    {
      PopStep(pile, j);
      var card := rest[|rest| - 1];
      rest := rest[..|rest| - 1];
      dealt := dealt.AddCard(card).0;
    }
  }

  /** Popping the card below the `j` already popped. */
  lemma PopStep(pile: seq<Card>, j: nat)
    requires j < |pile|
    ensures pile[..|pile| - j][..|pile| - j - 1] == pile[..|pile| - (j + 1)]
    ensures pile[..|pile| - j][|pile| - j - 1] == pile[|pile| - (j + 1)]
  {
  }
}
