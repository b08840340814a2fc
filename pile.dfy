/** The two card piles drawn by the client in `src/components/pile.rs`: the
    face-up pile shows its last three cards, the face-down pile a number of card
    backs that grows ever more slowly with the number of cards and is capped. */
module Pile {
  import opened Common

  /** Card backs shown one for one. */
  const MaxBeforeCut: nat := 10
  /** Beyond the cut, one card back per this many cards. */
  const AfterCutScale: nat := 3
  /** The most card backs ever shown. */
  const MaxTotal: nat := 30

  /** The `show_count` of `HiddenPile::view` for a pile of `cards` cards: all of
      them up to the cut, then a third of the rest (rounded down), at most 30.
      Being `usize` arithmetic on a count above the cut, nothing here can wrap. */
  function ShowCount(cards: nat): (r: nat)
    ensures r <= MaxTotal && r <= cards
    ensures cards <= MaxBeforeCut ==> r == cards
    ensures cards > MaxBeforeCut ==> MaxBeforeCut <= r
  {
    var showCount := if cards > MaxBeforeCut
      then MaxBeforeCut + (cards - MaxBeforeCut) / AfterCutScale
      else cards;
    Min(showCount, MaxTotal)
  }

  /** More cards never show fewer backs. */
  lemma ShowCountMonotone(n: nat, m: nat)
    requires n <= m
    ensures ShowCount(n) <= ShowCount(m)
  {
  }

  /** The cap is reached exactly from 70 cards on. */
  lemma ShowCountCapped(n: nat)
    ensures ShowCount(n) == MaxTotal <==> n >= 70
  {
  }

  /** Above the cut, every three more cards show one more back, until the cap. */
  lemma ShowCountStep(n: nat)
    requires MaxBeforeCut <= n && n + AfterCutScale < 70
    ensures ShowCount(n + AfterCutScale) == ShowCount(n) + 1
  {
    assert (n + AfterCutScale - MaxBeforeCut) / AfterCutScale ==
           (n - MaxBeforeCut) / AfterCutScale + 1;
  }

  /** The first `n` elements of `s`, or all of them if there are fewer:
      `Iterator::take`. */
  function Take<T>(s: seq<T>, n: nat): (r: seq<T>)
    ensures |r| == Min(n, |s|)
    ensures forall i :: 0 <= i < |r| ==> r[i] == s[i]
  {
    if |s| <= n then s else s[..n]
  }

  /** The cards `VisiblePile::view` shows: the pile reversed, its first three
      taken, and reversed back, which is the last `min(3, len)` cards of the
      pile in their order on the pile. */
  function VisibleCards<T>(cards: seq<T>): (r: seq<T>)
    ensures |r| == Min(3, |cards|)
    ensures r == cards[|cards| - Min(3, |cards|)..]
  {
    ReversedTakeReversed(cards);
    Reversed(Take(Reversed(cards), 3))
  }

  /** Reversing, taking three and reversing back keeps the last three. */
  lemma ReversedTakeReversed<T>(cards: seq<T>)
    ensures |Reversed(Take(Reversed(cards), 3))| == Min(3, |cards|)
    ensures Reversed(Take(Reversed(cards), 3)) == cards[|cards| - Min(3, |cards|)..]
  {
    var k, rev := Min(3, |cards|), Reversed(cards);
    var top := Take(rev, 3);
    var r := Reversed(top);
    forall i | 0 <= i < k ensures r[i] == cards[|cards| - k + i] {
      ReversedAt(top, i);
      ReversedAt(cards, k - 1 - i);
    }
  }
}
