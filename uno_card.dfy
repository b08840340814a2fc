/** The UNO card model of `hyo-server/src/uno/game.rs`: colours, cards, and when a
    card may be played on another. */
module UnoCard {
  import opened Common

  datatype Color = Blue | Green | Red | Yellow

  /** `Color::ALL`, in declaration order. */
  const AllColors: seq<Color> := [Blue, Green, Red, Yellow]

  /** The card sum type. Wild cards carry the colour chosen for them, if any. */
  datatype Card =
    | Numeric(color: Color, number: U8)
    | Skip(color: Color)
    | Reverse(color: Color)
    | DrawTwo(color: Color)
    | Wild(chosen: Option<Color>)
    | WildDrawFour(chosen: Option<Color>)

  /** True for the two wild variants. */
  predicate IsWild(card: Card) {
    card.Wild? || card.WildDrawFour?
  }

  /** `Card::get_color`: a coloured card's colour, or the colour chosen for a wild. */
  function GetColor(card: Card): (r: Option<Color>)
    ensures !IsWild(card) ==> r == Some(card.color)
    ensures IsWild(card) ==> r == card.chosen
  {
    match card
    case Numeric(c, _) => Some(c)
    case Skip(c) => Some(c)
    case Reverse(c) => Some(c)
    case DrawTwo(c) => Some(c)
    case Wild(c) => c
    case WildDrawFour(c) => c
  }

  /** `Card::kind_discriminant`: the variant's position in the declaration, paired
      with the number of a numeric card and 0 otherwise. */
  function KindDiscriminant(card: Card): (r: (int, int))
    ensures 0 <= r.0 < 6 && (r.0 == 0 <==> card.Numeric?)
    ensures r.1 == if card.Numeric? then card.number as int else 0
  {
    match card
    case Numeric(_, n) => (0, n as int)
    case Skip(_) => (1, 0)
    case Reverse(_) => (2, 0)
    case DrawTwo(_) => (3, 0)
    case Wild(_) => (4, 0)
    case WildDrawFour(_) => (5, 0)
  }

  /** Two cards are of the same kind when both are numeric with the same number, or
      both are the same non-numeric variant; colours do not matter. */
  predicate SameKind(a: Card, b: Card) {
    match (a, b)
    case (Numeric(_, n), Numeric(_, m)) => n == m
    case (Skip(_), Skip(_)) => true
    case (Reverse(_), Reverse(_)) => true
    case (DrawTwo(_), DrawTwo(_)) => true
    case (Wild(_), Wild(_)) => true
    case (WildDrawFour(_), WildDrawFour(_)) => true
    case _ => false
  }

  /** The discriminant is a faithful encoding of "same kind". */
  lemma KindDiscriminantIsSameKind(a: Card, b: Card)
    ensures KindDiscriminant(a) == KindDiscriminant(b) <==> SameKind(a, b)
  {
  }

  /** `Card::playable_on`: `card` may go on `top` when it has no colour yet, when
      the two colours are equal, or when the two kinds are equal. */
  function PlayableOn(card: Card, top: Card): (r: bool)
    ensures GetColor(card).None? ==> r
    ensures GetColor(card).Some? ==>
              (r <==> GetColor(card) == GetColor(top) || SameKind(card, top))
  {
    match GetColor(card)
    case None => true
    case Some(_) =>
      if GetColor(card) == GetColor(top) then true
      else KindDiscriminant(card) == KindDiscriminant(top)
  }

  /** Playability spelled out per variant: an uncoloured wild goes on anything; a
      coloured card goes on a card of its colour or of its kind. */
  lemma PlayableOnCases(card: Card, top: Card)
    ensures card == Wild(None) || card == WildDrawFour(None) ==> PlayableOn(card, top)
    ensures card.Numeric? && top.Numeric? ==>
              (PlayableOn(card, top) <==> card.color == top.color || card.number == top.number)
    ensures card.Skip? && !IsWild(top) ==>
              (PlayableOn(card, top) <==> card.color == top.color || top.Skip?)
    ensures card.Numeric? && top.Wild? ==>
              (PlayableOn(card, top) <==> top.chosen == Some(card.color))
  {
  }

  /** Only the card being played may be uncoloured: a coloured card is not
      playable on an uncoloured wild of another kind. */
  lemma ColoredNotPlayableOnUncoloredWild()
    ensures !PlayableOn(Numeric(Red, 5), Wild(None))
    ensures PlayableOn(Wild(None), Numeric(Red, 5))
  {
  }
}
