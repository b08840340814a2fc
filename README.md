# hyo in Dafny

A Dafny model of the rule and bookkeeping core of *hyo*, a browser card-game platform written in Rust. The model covers these parts:

- **UNO engine** (`hyo-server/src/uno/game.rs`): the cards, when one card may be played on another, the 108-card deck, the cycled deck sized to the lobby, the players' hands, and the `Game` turn state machine. That machine covers `create`, `advance`, `play_card`, `draw_card` and `play_drawn_card`.
- **Locale table** (`hyo-fluent/src/lib.rs`): first-match message lookup over an ordered list of bundles. Also `LocaleMap`, which keeps its bundles sorted by their first locale and finds them by binary search.
- **Asset registry** (`hyo-game/src/assets.rs`): assets equal by name only.
- **Game library loop** (`hyo-server/src/library.rs`): the first game loaded for an id wins.
- **Session registries** (`hyo-server/src/session.rs`, `hyo-server/src/session/server.rs`): listing public sessions and choosing an unused session id.
- **Client demo table** (`src/game.rs`): what clicking a hand card or the draw pile does.
- **Pile arithmetic** (`src/components/pile.rs`): how many card backs a hidden pile shows, and which cards a face-up pile shows.

## How the model is organised

Each Rust source file becomes one module:

| module | file | source |
|---|---|---|
| `Common` | `common.dfy` | `Option`, `Result`, `u8`, `Uuid`, sequence reversal, small arithmetic facts |
| `UnoCard` | `uno_card.dfy` | `Color`, `Card`, `get_color`, `kind_discriminant`, `playable_on` |
| `UnoDeck` | `uno_deck.dfy` | `build_default_deck`, `build_dynamic_deck` |
| `UnoGame` | `uno_game.dfy` | `Player`, `TurnState`, `Game` |
| `Fluent` | `fluent.dfy` | `format_message`, `IterFluentBundles`, `LocaleMap` |
| `GameAssets` | `assets.dfy` | `Asset`, `AssetByName`, `Assets` |
| `Library` | `library.dfy` | `library::load` |
| `Sessions` | `session.dfy` | `SessionManager` |
| `Server` | `session_server.dfy` | `SessionServer` |
| `ClientGame` | `client_game.dfy` | the demo `GameState` and `Game::update` |
| `Pile` | `pile.dfy` | `HiddenPile::view`, `VisiblePile::view` |

### Values and classes

- Values become datatypes: cards, players, bundles, assets and sessions.
- Code that mutates becomes loops or classes:
  - The deck builders are methods with loops, proved equal to functions that describe the deck.
  - `Game`, `LocaleMap`, `Assets` and the client `GameState` are classes whose methods update their fields.
  - `SessionManager` and `SessionServer` are classes too. Their two methods only read the session map.

### How `Game` is specified

Each `Game` method guarantees that it leaves the object in exactly the state a pure step function predicts from the old state:

- `AdvanceStep`
- `PlayCardStep`
- `DrawCardStep`
- `PlayDrawnCardStep`

The game invariant `ValidState` and card conservation are proved as lemmas about those step functions:

- the `…Keeps` lemmas: the invariant holds and the multiset of all cards is unchanged;
- the `…Moves` lemmas: exactly which cards move where.

The methods also guarantee `Valid()`.

### Two details of the UNO rules

- **`playable_on`** tests only the colour of the card being played (`hyo-server/src/uno/game.rs:50-52`), as the comment at line 50 says. An uncoloured top card does not make a coloured card playable. So a red 5 is not playable on an uncoloured `Wild` (`UnoCard.ColoredNotPlayableOnUncoloredWild`).
- **An unplayable card in `play_card`** is removed and then added back with `add_card` (`hyo-server/src/uno/game.rs:200-202`). The hand keeps the same cards, but that card moves to the end (`UnoGame.PlayCardMoves`).

## Model

| member | source | states |
|---|---|---|
| UnoCard.KindDiscriminant | hyo-server/src/uno/game.rs:37-47 | the variant's position among the six variants, 0 exactly for numeric cards, paired with the number of a numeric card and 0 for every other card |
| UnoCard.GetColor | hyo-server/src/uno/game.rs:29-35 | a coloured card yields its colour; a wild yields the colour chosen for it, if any |
| UnoCard.KindDiscriminantIsSameKind | hyo-server/src/uno/game.rs:37-47 | two discriminants are equal exactly when both cards are numeric with the same number, or are the same non-numeric variant; colour plays no part |
| UnoCard.PlayableOn | hyo-server/src/uno/game.rs:49-61 | a card without colour is always playable; a coloured card is playable exactly when its colour equals the top card's colour or the two kinds are equal |
| UnoCard.PlayableOnCases | hyo-server/src/uno/game.rs:49-61 | uncoloured wilds go on anything; numbers go on the same colour or the same number; a Skip goes on the same colour or another Skip; a number goes on a wild only when that colour was chosen |
| UnoCard.ColoredNotPlayableOnUncoloredWild | hyo-server/src/uno/game.rs:49-61 | only the played card's own lack of colour makes it playable: red 5 on an uncoloured Wild is refused, the reverse is allowed |
| UnoDeck.PushWilds | hyo-server/src/uno/game.rs:68-71 | the first loop appends four pairs of Wild(None), WildDrawFour(None) |
| UnoDeck.PushRound | hyo-server/src/uno/game.rs:77-86 | one inner round appends 1..9, then Skip, DrawTwo, Reverse of the colour |
| UnoDeck.PushColor | hyo-server/src/uno/game.rs:73-87 | one colour appends its 0 and two rounds |
| UnoDeck.PushColors | hyo-server/src/uno/game.rs:73-87 | the colour loop appends one block per colour, in order |
| UnoDeck.BuildDefaultDeck | hyo-server/src/uno/game.rs:64-91 | the pushes build exactly the canonical deck, whose size and composition the next two lemmas give |
| UnoDeck.DefaultDeckLength | hyo-server/src/uno/game.rs:64-91 | the canonical deck has 108 cards |
| UnoDeck.DefaultDeckComposition | hyo-server/src/uno/game.rs:64-91 | each uncoloured wild occurs 4 times; per colour there is one 0, two of each of 1..9 and two of each action card; no other card occurs (no chosen-colour wild, no number above 9) |
| UnoDeck.Cycle | hyo-server/src/uno/game.rs:96 | `cycle().take(n)` has n cards, card i being card i mod len of the source |
| UnoDeck.BuildDynamicDeck | hyo-server/src/uno/game.rs:93-97 | the dynamic deck has max(108, len) cards, card i being card i mod 108 of the canonical deck |
| UnoDeck.DynamicDeckFrequencies | hyo-server/src/uno/game.rs:93-97 | a dynamic deck of k whole cycles holds every card exactly k times as often as the canonical deck |
| UnoGame.EmptyPlayer | hyo-server/src/uno/game.rs:105-110 | a new player has the given id and an empty hand |
| UnoGame.Player.AddCard | hyo-server/src/uno/game.rs:112-115 | the card goes to the end of the hand, the returned index is where it now is, the hand gains exactly that card |
| UnoGame.Player.RemoveCard | hyo-server/src/uno/game.rs:117-122 | an index past the hand gives None and no change; otherwise it gives the card at that index, and the hand loses exactly that card, the others keeping their order |
| UnoGame.NextIndex | hyo-server/src/uno/game.rs:174-181 | the next seat is in range and is one seat further in the direction of play, wrapping from the last seat to 0 and from 0 to the last |
| UnoGame.NextIndexInverse | hyo-server/src/uno/game.rs:174-181 | a step forward and a step back cancel out |
| UnoGame.DealingFits | hyo-server/src/uno/game.rs:143-153 | a deck of max(108, 20n) cards always holds the 8n dealt cards and the turned-up card, so `create` never pops an empty pile |
| UnoGame.TopCard | hyo-server/src/uno/game.rs:165-168 | the current card is a card of the discard pile, and the pile is the cards below it plus it |
| UnoGame.AdvanceStep | hyo-server/src/uno/game.rs:174-181 | the turn passes to the next seat in the direction of play (index ± 1, wrapping), the turn state becomes PlayOrDraw, and nothing else changes |
| UnoGame.AdvanceKeeps | hyo-server/src/uno/game.rs:174-181 | advancing keeps a game valid and keeps its cards |
| UnoGame.PlayCardStep | hyo-server/src/uno/game.rs:183-204 | success exactly when the state is PlayOrDraw, the index is in the hand and that card is playable on the top card |
| UnoGame.PlayCardKeeps | hyo-server/src/uno/game.rs:183-204 | play_card keeps a game valid (a non-empty discard pile, an index in range) and never creates or loses a card |
| UnoGame.PlayCardMoves | hyo-server/src/uno/game.rs:183-204 | on success the card leaves the hand for the top of the discard pile and the turn passes; an unplayable card moves to the end of the hand with no turn change; a refused call changes nothing; on success the turn state is PlayOrDraw; the draw pile and the direction are untouched |
| UnoGame.DrawCardStep | hyo-server/src/uno/game.rs:206-229 | success exactly when the state is PlayOrDraw and the draw pile is non-empty; a refused call changes nothing |
| UnoGame.DrawCardKeeps | hyo-server/src/uno/game.rs:206-229 | draw_card keeps a game valid, including a pending index that names the drawn, playable card, and never creates or loses a card |
| UnoGame.DrawCardMoves | hyo-server/src/uno/game.rs:206-229 | the top draw card goes to the end of the current hand; if playable the same player holds it pending at the index add_card returned, otherwise the turn passes; the discard pile and the direction are untouched |
| UnoGame.PlayDrawnCardStep | hyo-server/src/uno/game.rs:231-244 | success exactly when a drawn card is pending; a refused call changes nothing; on success the turn state is reset and the draw pile is untouched |
| UnoGame.PlayDrawnCardKeeps | hyo-server/src/uno/game.rs:231-244 | play_drawn_card keeps a game valid and its cards; the validity invariant is what makes the `unwrap` at line 238 safe |
| UnoGame.DrawThenPlay | hyo-server/src/uno/game.rs:206-244 | drawing a playable card and playing it moves it from the draw pile to the discard pile, leaves the hands as they were and passes the turn |
| UnoGame.DrawThenKeep | hyo-server/src/uno/game.rs:206-244 | drawing a playable card and keeping it leaves it at the end of the hand and passes the turn |
| UnoGame.MakePlayers | hyo-server/src/uno/game.rs:142 | one empty player per id, in order |
| UnoGame.ShuffledDeck | hyo-server/src/uno/game.rs:143-144 | the shuffled deck has the dynamic deck's size and the same cards |
| UnoGame.DealHand | hyo-server/src/uno/game.rs:147-150 | the inner loop pops eight cards off the top of the pile onto the hand, top card first |
| UnoGame.DealAll | hyo-server/src/uno/game.rs:146-151 | every player, in seat order, gets eight cards: the rest is the pile minus its top 8n cards, and pile and hands together hold the same cards as before |
| UnoGame.DealGame | hyo-server/src/uno/game.rs:142-153 | there is one player per id with eight cards each, a turned-up card, and a draw pile of max(108, 20n) − 8n − 1 cards; all together are the cards of the dynamic deck |
| UnoGame.Game.Create | hyo-server/src/uno/game.rs:141-163 | a valid game: players as given with eight cards each, one discard, index 0, forward, PlayOrDraw, and exactly the cards of the dynamic deck |
| UnoGame.Game.CurrentCard | hyo-server/src/uno/game.rs:165-168 | the top of the discard pile |
| UnoGame.Game.Advance | hyo-server/src/uno/game.rs:174-181 | the fields change as AdvanceStep says |
| UnoGame.Game.PlayCard | hyo-server/src/uno/game.rs:183-204 | the fields and result are those of PlayCardStep on the old state, and the game stays valid |
| UnoGame.Game.DrawCard | hyo-server/src/uno/game.rs:206-229 | the fields and result are those of DrawCardStep on the old state, and the game stays valid |
| UnoGame.Game.PlayDrawnCard | hyo-server/src/uno/game.rs:231-244 | the fields and result are those of PlayDrawnCardStep on the old state, and the game stays valid |
| Fluent.FormatMessage | hyo-fluent/src/lib.rs:45-58 | NoValue exactly for a message without value; Ok with the text exactly when formatting reported no error; otherwise Format with the non-empty error list |
| Fluent.FirstWith | hyo-fluent/src/lib.rs:74-78 | the index of the first bundle holding the id, None exactly when no bundle does |
| Fluent.GetMessage | hyo-fluent/src/lib.rs:65-67 | the message of the first bundle holding the id, None exactly when none does |
| Fluent.FormatId | hyo-fluent/src/lib.rs:69-80 | NotFound when no bundle has the id; otherwise format_message on the first bundle that has it |
| Fluent.Localize | hyo-fluent/src/lib.rs:82-84 | the formatted text when formatting succeeds, the id itself in every failing case |
| Fluent.FormatIdSkipsLacking | hyo-fluent/src/lib.rs:74-78 | bundles lacking the id in front of the list do not change the result |
| Fluent.BinarySearch | hyo-fluent/src/lib.rs:154 | on a sorted slice: Ok exactly when the element occurs, with an index holding it; otherwise Err with the position that splits smaller from larger elements |
| Fluent.InsertionPoint | hyo-fluent/src/lib.rs:154 | a position with no larger element before it and no smaller one after |
| Fluent.Insert | hyo-fluent/src/lib.rs:155-156 | `Vec::insert`: the element at the position, the elements before kept, the ones after moved up one, the multiset grown by that element |
| Fluent.InsertSorted | hyo-fluent/src/lib.rs:154-155 | inserting at the insertion point keeps `languages` sorted |
| Fluent.WithLocales | hyo-fluent/src/lib.rs:149-152 | the bundles that have a first locale |
| Fluent.LocaleMap.WithCapacity | hyo-fluent/src/lib.rs:125-131 | an empty valid map with the given fallback |
| Fluent.LocaleMap.NewWithFallback | hyo-fluent/src/lib.rs:133-142 | a valid map holding exactly the input bundles that have a locale, one entry each |
| Fluent.LocaleMap.HasFallback | hyo-fluent/src/lib.rs:144-146 | true exactly when the fallback is among the languages |
| Fluent.LocaleMap.AddBundle | hyo-fluent/src/lib.rs:148-158 | a bundle without locales is refused with no change; otherwise the first locale and the bundle are inserted at the binary-search position in both vectors; the vectors stay parallel and sorted, each bundle under its first locale |
| Fluent.LocaleMap.GetBundle | hyo-fluent/src/lib.rs:160-165 | Some exactly when the id is among the languages, and then a stored bundle whose first locale is that id |
| Fluent.LocaleMap.GetBundles | hyo-fluent/src/lib.rs:167-181 | for each requested id that has a bundle, in order, a stored bundle whose first locale is that id |
| GameAssets.ElementByName | hyo-game/src/assets.rs:39-49 | an asset is in the set exactly when its name is, and the asset found by name is the stored one; the path plays no part |
| GameAssets.ElementsAdd | hyo-game/src/assets.rs:87-89 | storing an asset under a fresh name adds exactly that asset |
| GameAssets.Assets.Default | hyo-game/src/assets.rs:51-52 | the empty set |
| GameAssets.Assets.Add | hyo-game/src/assets.rs:87-89 | true exactly when no asset of that name was present, in which case exactly this asset is added; otherwise nothing changes, so the original is kept; assets of other names are never touched |
| GameAssets.Assets.Get | hyo-game/src/assets.rs:91-93 | Some exactly when an asset of that name is in the set, and then that asset |
| Library.Build | hyo-server/src/library.rs:6-43 | every game is stored under its own id |
| Library.Load | hyo-server/src/library.rs:6-43 | the loop, with its `continue`s, builds exactly the library `Build` describes |
| Library.BuildKeys | hyo-server/src/library.rs:10-39 | the ids stored are exactly the ids of games that loaded; failed entries and failed loads add nothing |
| Library.BuildFirstWins | hyo-server/src/library.rs:28-37 | the game kept for an id is the first that loaded with it |
| Library.BuildGrows | hyo-server/src/library.rs:7-42 | later entries never remove or replace a stored game |
| Library.BuildSize | hyo-server/src/library.rs:7-42 | the library holds at most as many games as loaded |
| Sessions.PublicSessions | hyo-server/src/session.rs:23-25 | exactly the stored sessions that are public |
| Sessions.FreshSessionId | hyo-server/src/session.rs:27-34 | the returned id is not a key of the map, and it is the first unused draw |
| Sessions.SessionManager.Default | hyo-server/src/session.rs:17-20 | no sessions |
| Sessions.SessionManager.IterPublicSessions | hyo-server/src/session.rs:23-25 | exactly the stored sessions that are public; reads only |
| Sessions.SessionManager.NewSessionId | hyo-server/src/session.rs:27-34 | an id not in use, the first unused draw; the sessions are not modified |
| Server.SessionServer.Default | hyo-server/src/session/server.rs:13-16 | no sessions |
| Server.SessionServer.IterPublicSessions | hyo-server/src/session/server.rs:19-21 | exactly the stored sessions that are public; reads only |
| Server.SessionServer.NewSessionId | hyo-server/src/session/server.rs:23-30 | an id not in use, the first unused draw; the sessions are not modified |
| ClientGame.TestCards | src/game.rs:18-47 | the seven demo cards, the last a green 2 |
| ClientGame.UpdateStep | src/game.rs:83-105 | a hand index in range moves that card onto the play pile, the rest of the hand in order, and asks to render; an index past the hand changes nothing; a draw pops the last draw card onto the end of the hand; an empty draw pile changes nothing |
| ClientGame.UpdateKeepsCards | src/game.rs:83-105 | no update creates or loses a card |
| ClientGame.GameState.Test | src/game.rs:17-57 | the seven cards as draw pile and as hand, a green 2 on the play pile, fifteen cards in all |
| ClientGame.GameState.Update | src/game.rs:83-105 | the fields and result are those of UpdateStep, and the cards are kept |
| Pile.ShowCount | src/components/pile.rs:152-162 | at most 30 and at most the card count; exactly the count up to 10; at least 10 above it |
| Pile.ShowCountMonotone | src/components/pile.rs:152-162 | more cards never show fewer backs |
| Pile.ShowCountCapped | src/components/pile.rs:158-162 | the cap of 30 is reached exactly from 70 cards on |
| Pile.ShowCountStep | src/components/pile.rs:158-162 | above the cut and below the cap, three more cards show one more back |
| Pile.Take | src/components/pile.rs:104 | the first min(n, len) elements |
| Pile.VisibleCards | src/components/pile.rs:94-106 | the face-up pile shows its last min(3, len) cards, in pile order |

## Left out

- Randomness.
  - The shuffle (`hyo-server/src/uno/game.rs:144`) is an arbitrary reordering of the deck.
  - `Uuid::new_v4` is a sequence of draws supplied by the caller. `new_session_id` requires that the sequence contains an unused id; the real loop only terminates when the random source yields one.
- I/O is not part of this model:
  - reading directories and TOML manifests;
  - `Assets::load`;
  - `Game::load`;
  - logging in `library::load`.
  `load` is modelled over the sequence of results its entries produced.
- Websocket and TCP plumbing is not part of this model: `handle_connection`, `accept_loop`, `run_in_thread` and the worker. Neither are the HTTP routes, client fetching and Yew rendering.
- The `fluent` crate is outside the model:
  - `format_pattern` with its arguments is the parameter `fmt`;
  - `negotiate` is left out, because `fluent_langneg::negotiate_languages` is foreign code; `get_bundles`, which it calls, is modelled.
- `GenericFluentBundles` (`hyo-fluent/src/lib.rs:87-113`) is left out. Its methods only pass its vector to `IterFluentBundles`, which is modelled over a sequence of bundles.
- A `LanguageIdentifier` is its position in its total order (an `int`), which is all the binary search uses.
- Fluent.BinarySearch: on duplicate entries Rust may return any equal index. The model returns the one its midpoint search finds, and states only that it holds an equal element.
- `HashMap` and `HashSet` iteration order is unspecified. `iter_public_sessions` is therefore a set.
- `usize`/`isize` widths are not modelled. Counts are unbounded naturals. The `as isize` cast in `advance` cannot overflow for any real player count.
- `CardInfo` is declared in `src/components/card.rs`, which is not part of this model. Its shape (a colour name and a `u8` number) is taken from its uses in `src/game.rs`.
- UnoGame.Player.AddCard: a player is a value. `Vec<Player>` owns players by value, so `add_card` and `remove_card`, which mutate in place, return the updated player, and the game writes it back into its seat.
- UnoGame.DealAll: states how many cards each player receives and that no card is lost, but not which cards. `UnoGame.DealHand` states exactly which cards a single hand receives.
- UnoGame.Game.PlayCard: its own postcondition states the new state through `PlayCardStep`. Card conservation is proved about that step by `UnoGame.PlayCardKeeps` rather than repeated as a postcondition of the method. The same holds for `UnoGame.Game.DrawCard` and `UnoGame.Game.PlayDrawnCard`.
- Card side effects are not modelled, because the source has none: Skip, Reverse, DrawTwo and WildDrawFour do nothing, and `dir_forward` never changes.
- A game without players. `create` accepts an empty id list. With no players, several calls panic in the source, and the model does not represent a panic. Instead, each of the following members requires exactly the condition under which its operation does not panic:
  - `UnoGame.AdvanceStep` and `UnoGame.Game.Advance` require at least one player. `rem_euclid(0)` panics (`hyo-server/src/uno/game.rs:178`).
  - `UnoGame.Game.PlayCard` and `UnoGame.PlayCardKeeps` require at least one player. `current_player().unwrap()` panics (`hyo-server/src/uno/game.rs:171`, reached from line 189).
  - `UnoGame.Game.DrawCard` and `UnoGame.DrawCardKeeps` require at least one player or an empty draw pile. With cards to draw, line 219 unwraps the missing current player.
  In a valid game without players the turn state is always PlayOrDraw, so `play_card` always reaches the unwrap. The step functions are guarded the same way: `PlayCardStep` and `DrawCardStep` require an existing current player only on the paths that reach the unwrap.
- There is no reshuffle of an empty draw pile, matching the source.
