/** The demo table of the client in `src/game.rs`: a `GameState` of three
    piles of card faces that the `Game` component changes in place when a hand
    card or the draw pile is clicked. */
module ClientGame {
  import opened Common

  /** `CardInfo`: a card face, its colour name and number. */
  datatype CardInfo = CardInfo(color: string, number: U8)

  /** `GameMsg`. */
  datatype GameMsg = HandCardClicked(index: nat) | DrawPileClicked

  /** The seven demo cards of `GameState::test`. */
  function TestCards(): (r: seq<CardInfo>)
    ensures |r| == 7 && r[6] == CardInfo("green", 2)
  {
    [ CardInfo("red", 8), CardInfo("red", 5), CardInfo("red", 7), CardInfo("blue", 4),
      CardInfo("yellow", 1), CardInfo("green", 0), CardInfo("green", 2) ]
  }

  /** The cards of a table with draw pile `d`, play pile `p` and hand `h`. */
  ghost function TableCards(d: seq<CardInfo>, p: seq<CardInfo>, h: seq<CardInfo>): multiset<CardInfo> {
    multiset(d) + multiset(p) + multiset(h)
  }

  /** Moving card `i` of the hand onto the play pile keeps the cards. */
  lemma PlayKeeps(d: seq<CardInfo>, p: seq<CardInfo>, h: seq<CardInfo>, i: nat)
    requires i < |h|
    ensures TableCards(d, p + [h[i]], h[..i] + h[i + 1..]) == TableCards(d, p, h)
  {
    assert h == h[..i] + [h[i]] + h[i + 1..];
    var a, b, c, x := multiset(d), multiset(p), multiset(h[..i] + h[i + 1..]), multiset{h[i]};
    assert a + (b + x) + c == a + b + (c + x);
  }

  /** Moving the top of the draw pile to the end of the hand keeps the cards. */
  lemma PopKeeps(d: seq<CardInfo>, p: seq<CardInfo>, h: seq<CardInfo>)
    requires d != []
    ensures TableCards(d[..|d| - 1], p, h + [d[|d| - 1]]) == TableCards(d, p, h)
  {
    assert d == d[..|d| - 1] + [d[|d| - 1]];
    var a, b, c, x := multiset(d[..|d| - 1]), multiset(p), multiset(h), multiset{d[|d| - 1]};
    assert a + b + (c + x) == (a + x) + b + c;
  }

  /** The three piles of the table as a value: the draw pile (its top is the
      last card), the play pile and the cards held. */
  datatype Table = Table(drawPile: seq<CardInfo>, playPile: seq<CardInfo>, holding: seq<CardInfo>)

  /** `Game::update` on the table: a click on hand card `i` moves that card onto
      the play pile, the other held cards keeping their order; a click on the
      draw pile moves its top card to the end of the hand. The second component
      says whether anything changed: a click that cannot be served (an index
      past the hand, an empty draw pile) changes nothing. */
  function UpdateStep(t: Table, msg: GameMsg): (r: (Table, bool))
    ensures !r.1 ==> r.0 == t
    ensures msg.HandCardClicked? ==>
              && r.0.drawPile == t.drawPile
              && (r.1 <==> msg.index < |t.holding|)
              && (r.1 ==>
                    && r.0.holding == t.holding[..msg.index] + t.holding[msg.index + 1..]
                    && r.0.playPile == t.playPile + [t.holding[msg.index]])
    ensures msg.DrawPileClicked? ==>
              && r.0.playPile == t.playPile
              && (r.1 <==> t.drawPile != [])
              && (r.1 ==>
                    && r.0.drawPile == t.drawPile[..|t.drawPile| - 1]
                    && r.0.holding == t.holding + [t.drawPile[|t.drawPile| - 1]])
  {
    match msg
    case HandCardClicked(i) =>
      if i < |t.holding| then
        (t.(holding := t.holding[..i] + t.holding[i + 1..], playPile := t.playPile + [t.holding[i]]), true)
      else (t, false)
    case DrawPileClicked =>
      if t.drawPile != [] then
        var card := t.drawPile[|t.drawPile| - 1];
        (t.(drawPile := t.drawPile[..|t.drawPile| - 1], holding := t.holding + [card]), true)
      else (t, false)
  }

  /** No update makes a card appear or disappear. */
  lemma UpdateKeepsCards(t: Table, msg: GameMsg)
    ensures var t' := UpdateStep(t, msg).0;
            TableCards(t'.drawPile, t'.playPile, t'.holding) ==
            TableCards(t.drawPile, t.playPile, t.holding)
  {
    match msg
    case HandCardClicked(i) =>
      if i < |t.holding| {
        PlayKeeps(t.drawPile, t.playPile, t.holding, i);
      }
    case DrawPileClicked =>
      if t.drawPile != [] {
        PopKeeps(t.drawPile, t.playPile, t.holding);
      }
  }

  /** `GameState`, the component's `state` field, changed in place. */
  class GameState {
    var drawPile: seq<CardInfo>
    var playPile: seq<CardInfo>
    var holding: seq<CardInfo>

    /** The fields as a value. */
    ghost function State(): Table
      reads this
    {
      Table(drawPile, playPile, holding)
    }

    /** All cards on the table. */
    ghost function Cards(): multiset<CardInfo>
      reads this
    {
      TableCards(drawPile, playPile, holding)
    }

    /** `GameState::test`: the seven demo cards both as the draw pile and in
        hand, and a green 2 on the play pile. */
    constructor Test()
      ensures drawPile == TestCards() && holding == TestCards()
      ensures playPile == [CardInfo("green", 2)]
      ensures |Cards()| == 15
    {
      drawPile := TestCards();
      playPile := [CardInfo("green", 2)];
      holding := TestCards();
    }

    /** `Game::update`, in place on the state. */
    method Update(msg: GameMsg) returns (render: bool)
      modifies this
      ensures (State(), render) == UpdateStep(old(State()), msg)
      ensures Cards() == old(Cards())
    {
      UpdateKeepsCards(State(), msg);
      match msg
      case HandCardClicked(i) =>
        if i < |holding| {
          var card := holding[i];
          holding := holding[..i] + holding[i + 1..];
          playPile := playPile + [card];
          render := true;
        } else {
          render := false;
        }
      case DrawPileClicked =>
        if drawPile != [] {
          var card := drawPile[|drawPile| - 1];
          drawPile := drawPile[..|drawPile| - 1];
          holding := holding + [card];
          render := true;
        } else {
          render := false;
        }
    }
  }
}
