/** Deck construction of `hyo-server/src/uno/game.rs`: the canonical 108-card
    deck and the deck that cycles it for larger lobbies. */
module UnoDeck {
  import opened Common
  import opened UnoCard

  /** Size of the canonical deck. */
  const DefaultDeckSize: nat := 108

  /** `s` concatenated with itself `k` times. */
  function Repeat(s: seq<Card>, k: nat): seq<Card>
  {
    if k == 0 then [] else Repeat(s, k - 1) + s
  }

  lemma {:induction false} RepeatLength(s: seq<Card>, k: nat)
    ensures |Repeat(s, k)| == k * |s|
  {
    if k > 0 {
      RepeatLength(s, k - 1);
      assert (k - 1) * |s| + |s| == k * |s|;
    }
  }

  /** The two wild cards pushed by each round of the first loop. */
  function WildPair(): seq<Card> {
    [Wild(None), WildDrawFour(None)]
  }

  /** Numeric cards 1..k of colour `c`, in ascending order. */
  function Numbers(c: Color, k: nat): (r: seq<Card>)
    requires k <= 9
    ensures |r| == k
  {
    if k == 0 then [] else Numbers(c, k - 1) + [Numeric(c, k as U8)]
  }

  /** One round of the inner `for _ in 0..2` loop: 1..9, then Skip, DrawTwo, Reverse. */
  function NumberRun(c: Color): (r: seq<Card>)
    ensures |r| == 12
  {
    Numbers(c, 9) + [Skip(c), DrawTwo(c), Reverse(c)]
  }

  /** Everything pushed for one colour: its 0, then two rounds. */
  function ColorBlock(c: Color): (r: seq<Card>)
    ensures |r| == 25
  {
    RepeatLength(NumberRun(c), 2);
    [Numeric(c, 0)] + Repeat(NumberRun(c), 2)
  }

  /** The colour blocks of `cs`, in order. */
  function ColorBlocks(cs: seq<Color>): (r: seq<Card>)
    ensures |r| == 25 * |cs|
  {
    if cs == [] then [] else ColorBlocks(cs[..|cs| - 1]) + ColorBlock(cs[|cs| - 1])
  }

  /** The canonical deck, in the order `build_default_deck` pushes it. */
  function DefaultDeck(): seq<Card> {
    Repeat(WildPair(), 4) + ColorBlocks(AllColors)
  }

  /** How often each card occurs in the canonical deck: four of each uncoloured
      wild, one 0 and two of every 1..9 per colour, two of every action card per
      colour, and nothing else. */
  function DefaultCount(card: Card): nat {
    match card
    case Wild(None) => 4
    case WildDrawFour(None) => 4
    case Wild(Some(_)) => 0
    case WildDrawFour(Some(_)) => 0
    case Numeric(_, n) => if n == 0 then 1 else if n <= 9 then 2 else 0
    case Skip(_) => 2
    case Reverse(_) => 2
    case DrawTwo(_) => 2
  }

  lemma DefaultDeckLength()
    ensures |DefaultDeck()| == DefaultDeckSize
  {
  }

  lemma CountConcat<T>(a: seq<T>, b: seq<T>, x: T)
    ensures multiset(a + b)[x] == multiset(a)[x] + multiset(b)[x]
  {
    assert multiset(a + b) == multiset(a) + multiset(b);
  }

  lemma {:induction false} RepeatCount(s: seq<Card>, k: nat, x: Card)
    ensures multiset(Repeat(s, k))[x] == k * multiset(s)[x]
  {
    if k > 0 {
      RepeatCount(s, k - 1, x);
      CountConcat(Repeat(s, k - 1), s, x);
      assert (k - 1) * multiset(s)[x] + multiset(s)[x] == k * multiset(s)[x];
    }
  }

  lemma {:induction false} NumbersCount(c: Color, k: nat, x: Card)
    requires k <= 9
    ensures multiset(Numbers(c, k))[x] ==
              if x.Numeric? && x.color == c && 1 <= x.number as int <= k then 1 else 0
  {
    if k > 0 {
      var init, last := Numbers(c, k - 1), Numeric(c, k as U8);
      assert Numbers(c, k) == init + [last];
      NumbersCount(c, k - 1, x);
      CountConcat(init, [last], x);
      assert multiset([last])[x] == if x == last then 1 else 0;
    }
  }

  /** How often `x` occurs in one round: once for each non-zero numeric and each
      action card of colour `c`. */
  function RunCount(c: Color, x: Card): nat {
    match x
    case Numeric(d, n) => if d == c && 1 <= n <= 9 then 1 else 0
    case Skip(d) => if d == c then 1 else 0
    case DrawTwo(d) => if d == c then 1 else 0
    case Reverse(d) => if d == c then 1 else 0
    case Wild(_) => 0
    case WildDrawFour(_) => 0
  }

  lemma NumberRunCount(c: Color, x: Card)
    ensures multiset(NumberRun(c))[x] == RunCount(c, x)
  {
    NumbersCount(c, 9, x);
    RunOfNumbers(Numbers(c, 9), c, x);
  }

  lemma RunOfNumbers(numbers: seq<Card>, c: Color, x: Card)
    requires multiset(numbers)[x] ==
               if x.Numeric? && x.color == c && 1 <= x.number as int <= 9 then 1 else 0
    ensures multiset(numbers + [Skip(c), DrawTwo(c), Reverse(c)])[x] == RunCount(c, x)
  {
    var actions := [Skip(c), DrawTwo(c), Reverse(c)];
    CountConcat(numbers, actions, x);
    if x.Numeric? {
      assert x !in actions;
    }
  }

  /** How often `x` occurs among the cards pushed for colour `c`. */
  function BlockCount(c: Color, x: Card): nat {
    (if x == Numeric(c, 0) then 1 else 0) + 2 * RunCount(c, x)
  }

  lemma ColorBlockCount(c: Color, x: Card)
    ensures multiset(ColorBlock(c))[x] == BlockCount(c, x)
  {
    var run := NumberRun(c);
    NumberRunCount(c, x);
    RepeatCount(run, 2, x);
    BlockParts(c, Repeat(run, 2), x);
  }

  /** A colour's 0 followed by its two rounds. */
  lemma BlockParts(c: Color, rounds: seq<Card>, x: Card)
    requires multiset(rounds)[x] == 2 * RunCount(c, x)
    ensures multiset([Numeric(c, 0)] + rounds)[x] == BlockCount(c, x)
  {
    CountConcat([Numeric(c, 0)], rounds, x);
  }

  /** The per-colour count is the canonical count restricted to that colour. */
  lemma BlockCountIsDefault(c: Color, x: Card)
    ensures BlockCount(c, x) == if !IsWild(x) && x.color == c then DefaultCount(x) else 0
  {
  }

  lemma InSnoc<T>(s: seq<T>, x: T)
    requires s != []
    ensures x in s <==> x in s[..|s| - 1] || x == s[|s| - 1]
  {
    assert s == s[..|s| - 1] + [s[|s| - 1]];
  }

  /** How often `x` occurs among the blocks of colours `cs`. */
  function BlocksCount(cs: seq<Color>, x: Card): nat {
    if cs == [] then 0 else BlocksCount(cs[..|cs| - 1], x) + BlockCount(cs[|cs| - 1], x)
  }

  lemma {:induction false} ColorBlocksMultiset(cs: seq<Color>, x: Card)
    ensures multiset(ColorBlocks(cs))[x] == BlocksCount(cs, x)
  {
    if cs != [] {
      var init, last := cs[..|cs| - 1], cs[|cs| - 1];
      ColorBlocksMultiset(init, x);
      ColorBlockCount(last, x);
      CountConcat(ColorBlocks(init), ColorBlock(last), x);
    }
  }

  /** With no colour repeated, a card of colour `d` appears as often as in the
      canonical deck when `d` is among `cs`, and not at all otherwise. */
  lemma {:induction false} BlocksCountDistinct(cs: seq<Color>, x: Card)
    requires forall i, j :: 0 <= i < j < |cs| ==> cs[i] != cs[j]
    ensures BlocksCount(cs, x) == if !IsWild(x) && x.color in cs then DefaultCount(x) else 0
  {
    if cs != [] {
      var init, last := cs[..|cs| - 1], cs[|cs| - 1];
      BlocksCountDistinct(init, x);
      BlockCountIsDefault(last, x);
      if !IsWild(x) {
        InSnoc(cs, x.color);
      }
      assert last !in init;
    }
  }

  lemma ColorBlocksCount(cs: seq<Color>, x: Card)
    requires forall i, j :: 0 <= i < j < |cs| ==> cs[i] != cs[j]
    ensures multiset(ColorBlocks(cs))[x] ==
              if !IsWild(x) && x.color in cs then DefaultCount(x) else 0
  {
    ColorBlocksMultiset(cs, x);
    BlocksCountDistinct(cs, x);
  }

  lemma ColorInAllColors(c: Color)
    ensures c in AllColors
  {
  }

  lemma WildPairCount(x: Card)
    ensures multiset(WildPair())[x] == if x == Wild(None) || x == WildDrawFour(None) then 1 else 0
  {
    CountConcat([Wild(None)], [WildDrawFour(None)], x);
  }

  /** The four wild pairs hold each uncoloured wild four times and nothing else. */
  lemma WildsCount(x: Card)
    ensures multiset(Repeat(WildPair(), 4))[x] ==
              if x == Wild(None) || x == WildDrawFour(None) then 4 else 0
  {
    RepeatCount(WildPair(), 4, x);
    WildPairCount(x);
  }

  /** The wild cards followed by one block per colour, each colour once. */
  lemma DeckOfColorsComposition(wilds: seq<Card>, cs: seq<Color>, x: Card)
    requires multiset(wilds)[x] == if x == Wild(None) || x == WildDrawFour(None) then 4 else 0
    requires forall i, j :: 0 <= i < j < |cs| ==> cs[i] != cs[j]
    requires !IsWild(x) ==> x.color in cs
    ensures multiset(wilds + ColorBlocks(cs))[x] == DefaultCount(x)
  {
    ColorBlocksCount(cs, x);
    PartsComposition(wilds, ColorBlocks(cs), x);
  }

  /** The wild cards followed by the colour blocks, each holding its own part
      of the canonical count. */
  lemma PartsComposition(wilds: seq<Card>, blocks: seq<Card>, x: Card)
    requires multiset(wilds)[x] == if x == Wild(None) || x == WildDrawFour(None) then 4 else 0
    requires multiset(blocks)[x] == if !IsWild(x) then DefaultCount(x) else 0
    ensures multiset(wilds + blocks)[x] == DefaultCount(x)
  {
    CountConcat(wilds, blocks, x);
  }

  /** The canonical deck has exactly the composition `DefaultCount` describes. */
  lemma DefaultDeckComposition(x: Card)
    ensures multiset(DefaultDeck())[x] == DefaultCount(x)
  {
    if !IsWild(x) {
      ColorInAllColors(x.color);
    }
    WildsCount(x);
    AllColorsDistinct();
    DeckOfColorsComposition(Repeat(WildPair(), 4), AllColors, x);
  }

  /** No colour occurs twice in `AllColors`. */
  lemma AllColorsDistinct()
    ensures forall i, j :: 0 <= i < j < |AllColors| ==> AllColors[i] != AllColors[j]
  {
  }

  /** `build_default_deck`: pushes the wild pairs, then for every colour its 0
      and two rounds of 1..9, Skip, DrawTwo, Reverse. */
  method BuildDefaultDeck() returns (deck: seq<Card>)
    ensures deck == DefaultDeck()
  {
    deck := PushWilds([]);
    deck := PushColors(deck, AllColors);
  }

  /** The colour loop of `build_default_deck`, over `colors` in order. */
  method PushColors(deck: seq<Card>, colors: seq<Color>) returns (r: seq<Card>)
    ensures r == deck + ColorBlocks(colors)
  {
    r := deck;
    for ci := 0 to |colors|
      invariant r == deck + ColorBlocks(colors[..ci])
    {
      r := PushColor(r, colors[ci]);
      SnocBlocks(colors, ci);
    }
    assert colors[..|colors|] == colors;
  }

  /** The first loop of `build_default_deck`: four rounds of Wild, WildDrawFour. */
  method PushWilds(deck: seq<Card>) returns (r: seq<Card>)
    ensures r == deck + Repeat(WildPair(), 4)
  {
    r := deck;
    for i := 0 to 4
      invariant r == deck + Repeat(WildPair(), i)
    {
      r := r + [Wild(None)];
      r := r + [WildDrawFour(None)];
    }
  }

  lemma SnocBlocks(cs: seq<Color>, i: nat)
    requires i < |cs|
    ensures ColorBlocks(cs[..i + 1]) == ColorBlocks(cs[..i]) + ColorBlock(cs[i])
  {
    assert cs[..i + 1][..i] == cs[..i];
  }

  /** The body of the colour loop: the 0, then two rounds of 1..9 and the
      three action cards. */
  method PushColor(deck: seq<Card>, color: Color) returns (r: seq<Card>)
    ensures r == deck + ColorBlock(color)
  {
    r := deck + [Numeric(color, 0)];
    ghost var head, run := r, NumberRun(color);
    for round := 0 to 2
      invariant r == head + Repeat(run, round)
    {
      r := PushRound(r, color);
      RepeatSnoc(head, run, round);
    }
    BlockIsHeadRepeat(deck, color);
  }

  lemma RepeatSnoc(head: seq<Card>, run: seq<Card>, k: nat)
    ensures head + Repeat(run, k) + run == head + Repeat(run, k + 1)
  {
  }

  lemma BlockIsHeadRepeat(deck: seq<Card>, color: Color)
    ensures deck + ColorBlock(color) == deck + [Numeric(color, 0)] + Repeat(NumberRun(color), 2)
  {
  }

  /** One round of the inner `for _ in 0..2` loop. */
  method PushRound(deck: seq<Card>, color: Color) returns (r: seq<Card>)
    ensures r == deck + NumberRun(color)
  {
    r := deck;
    for n := 1 to 10
      invariant r == deck + Numbers(color, n - 1)
    {
      r := r + [Numeric(color, n as U8)];
    }
    r := r + [Skip(color)];
    r := r + [DrawTwo(color)];
    r := r + [Reverse(color)];
  }

  /** The first `n` cards of `s` repeated endlessly: `s.iter().cycle().take(n)`. */
  function Cycle<T>(s: seq<T>, n: nat): (r: seq<T>)
    requires |s| > 0
    ensures |r| == n
    ensures forall i :: 0 <= i < n ==> r[i] == s[i % |s|]
    decreases n
  {
    var r := if n <= |s| then s[..n] else s + Cycle(s, n - |s|);
    assert forall i :: 0 <= i < n ==> r[i] == s[i % |s|] by {
      forall i | 0 <= i < n ensures r[i] == s[i % |s|] {
        if i < |s| {
          ModUnique(i, |s|, 0, i);
        } else {
          ModMinus(i, |s|);
        }
      }
    }
    r
  }

  /** A lobby-sized deck: the canonical deck cycled up to at least `len` cards. */
  function DynamicDeck(len: nat): seq<Card> {
    Cycle(DefaultDeck(), Max(DefaultDeckSize, len))
  }

  /** `build_dynamic_deck`: at least the canonical 108 cards, card i being card
      i mod 108 of the canonical deck. */
  method BuildDynamicDeck(len: nat) returns (deck: seq<Card>)
    ensures deck == DynamicDeck(len)
    ensures |deck| == Max(DefaultDeckSize, len)
    ensures forall i :: 0 <= i < |deck| ==> deck[i] == DefaultDeck()[i % DefaultDeckSize]
  {
    var defaultDeck := BuildDefaultDeck();
    var n := Max(|defaultDeck|, len);
    deck := Cycle(defaultDeck, n);
  }

  /** Cycling over whole copies is repeating. */
  lemma {:induction false} CycleWhole(s: seq<Card>, k: nat)
    requires |s| > 0
    ensures Cycle(s, k * |s|) == Repeat(s, k)
  {
    var a, b := Cycle(s, k * |s|), Repeat(s, k);
    RepeatLength(s, k);
    forall i | 0 <= i < k * |s| ensures a[i] == b[i] {
      RepeatAt(s, k, i);
    }
  }

  lemma {:induction false} RepeatAt(s: seq<Card>, k: nat, i: nat)
    requires |s| > 0 && i < |Repeat(s, k)|
    ensures Repeat(s, k)[i] == s[i % |s|]
  {
    RepeatLength(s, k);
    assert k * |s| == (k - 1) * |s| + |s|;
    RepeatLength(s, k - 1);
    if i < (k - 1) * |s| {
      RepeatAt(s, k - 1, i);
    } else {
      ModUnique(i, |s|, k - 1, i - (k - 1) * |s|);
    }
  }

  /** A deck of k whole cycles holds every card k times as often as the canonical
      deck: cycling keeps the relative frequencies. */
  lemma DynamicDeckFrequencies(k: nat, x: Card)
    requires k >= 1
    ensures multiset(DynamicDeck(k * DefaultDeckSize))[x] == k * DefaultCount(x)
  {
    DefaultDeckLength();
    assert Max(DefaultDeckSize, k * DefaultDeckSize) == k * DefaultDeckSize;
    CycleWhole(DefaultDeck(), k);
    RepeatCount(DefaultDeck(), k, x);
    DefaultDeckComposition(x);
  }
}
