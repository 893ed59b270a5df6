# Word guessing game: a verified model of its game-state machine

`word_guessing_game.js` is a timed memory game in the browser. Sixteen cards carry eight words,
two cards per word. When a round starts every card is shown for three seconds, then the
unmatched cards are turned face-down. The player turns cards over two at a time. A pair with
the same word stays face-up and scores 10 points. A pair with different words is turned back
after one second, and input is locked meanwhile. A one-second countdown ends the round when
the time runs out, and matching all eight pairs ends it as a win.

The project models the record `gameState` and the functions that update it:
- `options.dfy`: the `Option` type, used for the parsed time input.
- `shuffle.dfy` (module `Shuffle`): the Fisher-Yates loop of `shuffleArray`. It works in place
  on an array, and the caller supplies the random draws.
- `cards.dfy` (module `Cards`): the card record, how `createCards` builds a deck, the per-card
  updates, and a count of matched cards.
- `rules.dfy` (module `GameRules`): the `CONFIG` constants and a snapshot `View` of the whole
  state. It has one pure step function per handler, the invariant `Inv`, and lemmas showing
  that every handler keeps `Inv`.
- `properties.dfy` (module `GameProperties`): what each handler promises, stated over the
  steps for every state that satisfies `Inv`.
- `game.dfy` (module `WordGame`): class `Game`, with the fields of `gameState` and one method
  per handler of the source, each changing the fields in place. The constructor (page load),
  `InitGame`, `HandleCardClick`, `MismatchTimeout`, `StartGame`, `Tick`, `MemorizeTimeout`
  and `StartButton` are proved to perform their step on `State()` and to keep `Valid()`. The
  helpers they call (`CreateCards`, `FlipCard`, `UpdateScore`, `UpdateTimer`, `EndGame`,
  `CheckForMatch`, `HideAllCards`) are proved to perform their step and nothing more; the
  static `DealCards` returns the dealt array. `shuffleArray` is `Shuffle.ShuffleArray`.

The invariant `Inv` states the following:
- there are 16 cards, and each of the first eight words lies on exactly two of them;
- the selection holds at most two distinct cards, each face-up and unmatched;
- a matched card is face-up;
- the score is 10 × `matchedPairs`, and the number of matched cards is 2 × `matchedPairs`;
- the interval is armed exactly while the game is started;
- a pending mismatch callback for the current deck holds exactly the two selected cards, and
  input is locked until it runs;
- while the memorize timeout is pending, every card is face-up and nothing is selected.

Timers are modelled as events that the environment may fire: `Tick` (the interval),
`MismatchTimeout` (the one-second callback) and `MemorizeTimeout` (the three-second callback).
Clicks are `HandleCardClick(i)` and the start button is `StartButton`. The environment may
interleave these events in any order, with two limits that come from the delays in the source:
- the countdown fires at most `MEMORY_TIME / TICK_TIME` = 3 times before the memorize timeout
  of the same round (`TickMayFire`);
- the memorize timeout never fires while a mismatch callback is pending (`MemorizeMayFire`). A
  mismatch callback is at most 1 s old when it fires. A mismatch in the same round can only
  come after the memorize timeout. One left from the previous round fires before the new
  round's 3 s timeout.

Under these two limits, the guard `if (gameState.isGameStarted)` in the memorize callback is
always true.

Behaviour of the program that the model keeps as written:
- The word list is cut with `slice`, so asking for more pairs than words raises no error
  (`SelectWords`).
- A round's outcome (won or timed out) is only shown as a message. It is not part of the state.
- Only the interval is cleared when a round ends. A pending mismatch callback still runs. If
  the round has timed out meanwhile, it re-enables input after the end
  (`GameProperties.MismatchAfterEndReenablesInput`), and play can go on with the game stopped.
- `initGame` stores the parsed time without clamping. A negative value makes its
  `updateTimer` call `endGame` at once. Only `startGame` clamps to [5, 60].

## Model

| member | source | states |
|---|---|---|
| `Shuffle.ShuffleArray` | word_guessing_game.js:252-258 | the array becomes the Fisher-Yates arrangement of its old contents for the given draws (step i swaps i with a draw j ≤ i, for i from the last index down to 1), with the same multiset of elements |
| `Shuffle.ShuffledPermutes` | word_guessing_game.js:252-258 | the shuffle keeps the length and the multiset of its input |
| `Shuffle.ShuffleDownKeepsAbove` | word_guessing_game.js:253-256 | the steps from i down to 1 never move an element at a position above i |
| `Shuffle.ShuffledLast` | word_guessing_game.js:253-255 | the last position ends up holding the element drawn for it in the first step |
| `Shuffle.SwapPermutes` | word_guessing_game.js:255 | the destructuring swap keeps the multiset |
| `Cards.BuildDeckShape` | word_guessing_game.js:62-93 | a built deck has 2 × (selected words) cards, all face-down and unmatched, with the multiset of the doubled word list; when the words are distinct each selected word lies on exactly two cards and no other word on any |
| `Cards.DistinctOccursOnce` | word_guessing_game.js:64 | a word of a duplicate-free list occurs in it exactly once |
| `Cards.MatchedCount` | word_guessing_game.js:135-136 | the number of matched cards never exceeds the number of cards |
| `Cards.MatchPairAddsTwo` | word_guessing_game.js:134-136 | marking two distinct unmatched cards matched adds exactly two matched cards and keeps every word |
| `Cards.FullCountAllMatched` | word_guessing_game.js:144 | when the matched count equals the deck size, every card is matched |
| `Cards.SameMarksKeep` | word_guessing_game.js:117-127 | changing only which cards are face-up keeps the words and the matched count |
| `GameRules.ClampTime` | word_guessing_game.js:167-170 | the start time lies in [5, 60]; it equals the parsed input inside that range, 5 below it, 60 above it, and 20 when the input is missing or 0 |
| `GameRules.InitEstablishesInv` | word_guessing_game.js:32-59 | `initGame` called while no game runs yields a state satisfying the invariant |
| `GameRules.StartPreservesInv` | word_guessing_game.js:162-204 | `startGame` after `initGame` keeps the invariant, and so does a repeated call on a running game |
| `GameRules.SelectPreservesInv` | word_guessing_game.js:106-108 | turning an accepted card face-up and appending it to the selection keeps the invariant and leaves input enabled |
| `GameRules.MatchPreservesInv` | word_guessing_game.js:130-159 | `checkForMatch` keeps the invariant when a match or a mismatch is resolved |
| `GameRules.ClickPreservesInv` | word_guessing_game.js:96-114 | every click, accepted or not, keeps the invariant |
| `GameRules.MismatchPreservesInv` | word_guessing_game.js:152-157 | the mismatch callback keeps the invariant, also when its cards belong to a discarded deck |
| `GameRules.MemorizePreservesInv` | word_guessing_game.js:199-216 | the memorize timeout keeps the invariant |
| `GameRules.TickPreservesInv` | word_guessing_game.js:187-196 | a countdown tick keeps the invariant |
| `GameRules.StartButtonPreservesInv` | word_guessing_game.js:261-266 | the start button keeps the invariant |
| `GameProperties.SelectedWordsDistinct` | word_guessing_game.js:6-9 | the eight words in play are pairwise different |
| `GameProperties.ScoreTracksPairs` | word_guessing_game.js:40 | in every valid state score = 10 × matched pairs and 0 ≤ pairs ≤ 8; with all 8 pairs matched, every card is matched |
| `GameProperties.DeckWordsTwice` | word_guessing_game.js:64-66 | throughout a round each of the first eight words lies on exactly two cards and no other word on any |
| `GameProperties.InitDeals` | word_guessing_game.js:32-59 | `initGame` deals 16 face-down unmatched cards with each selected word twice. It empties the selection, zeroes score and pairs, disables input, stops the game and keeps the unclamped parsed time |
| `GameProperties.ClickChangesIffAccepted` | word_guessing_game.js:96-104 | a click leaves the state unchanged exactly when input is disabled, two cards are already selected, or the target is face-up or matched |
| `GameProperties.AcceptedClickSelects` | word_guessing_game.js:97-113 | an accepted click turns the target face-up and touches no card outside the selection. The selection stays at most two face-up unmatched cards; a first click selects exactly the target |
| `GameProperties.MatchingClick` | word_guessing_game.js:130-148 | a match marks both cards matched, adds exactly one pair and ten points and empties the selection. The eighth pair stops the game and disables input, and otherwise both are unchanged |
| `GameProperties.MismatchingClick` | word_guessing_game.js:149-152 | a mismatch disables input and arms the callback with both cards, which stay face-up; score and pairs are unchanged |
| `GameProperties.MismatchSettles` | word_guessing_game.js:152-157 | the callback turns exactly its two cards face-down, each keeping its word and matched mark, and no other card changes; it empties the selection and re-enables input; score, pairs and the started flag are unchanged |
| `GameProperties.MismatchAfterEndReenablesInput` | word_guessing_game.js:152-157 | when the game has ended before the callback runs, the callback still re-enables input while the game stays stopped |
| `GameProperties.StartReveals` | word_guessing_game.js:162-204 | on a running game `startGame` does nothing. Otherwise it starts the game with the clamped time, every card face-up and both timers armed; the words, each card's matched mark, the matched count, score and input stay as they were |
| `GameProperties.MemorizeHidesUnmatched` | word_guessing_game.js:198-216 | after the memorize timeout a card is face-up exactly when it is matched, no matched mark changes, and input is enabled |
| `GameProperties.TickCountsDown` | word_guessing_game.js:187-196 | a tick lowers the time by exactly one. At 0 or below the game stops and input and the interval are off, and otherwise nothing else changes |
| `GameProperties.EndGameIdempotent` | word_guessing_game.js:219-222 | ending an ended game changes nothing; an ended game is stopped, input is off and the interval is cleared |
| `WordGame.Game.constructor` | word_guessing_game.js:13-22 | the page-load state is the `gameState` literal followed by one `initGame`, and it satisfies the invariant |
| `WordGame.Game.InitGame` | word_guessing_game.js:32-59 | performs `InitStep` in place on a fresh deck and establishes the invariant |
| `WordGame.Game.CreateCards` | word_guessing_game.js:62-93 | replaces the deck with a fresh one equal to `BuildDeck` of the word list and the draws, nothing else changed |
| `WordGame.Game.DealCards` | word_guessing_game.js:69-92 | a fresh array holding one face-down unmatched record per word, in order |
| `WordGame.Game.FlipCard` | word_guessing_game.js:117-127 | only the face-up state of the given card changes, to `show` |
| `WordGame.Game.UpdateScore` | word_guessing_game.js:237-240 | only the score changes, by the given points |
| `WordGame.Game.UpdateTimer` | word_guessing_game.js:243-249 | ends the game exactly when the time left is 0 or less, and otherwise changes nothing |
| `WordGame.Game.EndGame` | word_guessing_game.js:219-234 | clears the interval, stops the game and disables input; nothing else changes |
| `WordGame.Game.HandleCardClick` | word_guessing_game.js:96-114 | performs `ClickStep` in place on the same deck and keeps the invariant |
| `WordGame.Game.CheckForMatch` | word_guessing_game.js:130-159 | performs `MatchStep` in place on the same deck |
| `WordGame.Game.MismatchTimeout` | word_guessing_game.js:152-157 | performs `MismatchStep` in place and keeps the invariant |
| `WordGame.Game.StartGame` | word_guessing_game.js:162-204 | performs `StartStep` with a loop that reveals every card, and keeps the invariant |
| `WordGame.Game.Tick` | word_guessing_game.js:187-196 | performs `TickStep`, calling `endGame` twice on the final tick as the source does, and keeps the invariant |
| `WordGame.Game.MemorizeTimeout` | word_guessing_game.js:199-203 | performs `MemorizeStep` and keeps the invariant |
| `WordGame.Game.HideAllCards` | word_guessing_game.js:207-216 | a loop that turns every unmatched card face-down and keeps matched cards face-up, then enables input |
| `WordGame.Game.StartButton` | word_guessing_game.js:261-266 | `initGame` then `startGame` unless a game runs, keeping the invariant |

## Left out

- Rendering and the DOM: board markup, CSS classes, text, colours, messages, and the enabled state of the button and input. A card's `element` field is dropped.
- Scheduling by `setInterval`/`setTimeout`: each callback is an event method, and an armed or pending callback is a field. Only the two ordering facts described above limit the interleaving.
- `Math.random`: the shuffle takes a sequence of draws, with draw i in [0, i].
- `parseInt` of the time field: the field's value is given as an optional integer (`None` for an unparseable value).
- The write-back `gameTimeInput.value = validTime`: the caller passes the field's current value on each call, so the clamped value is not stored for the next round.
- A mismatch callback from a discarded deck turns back cards that are no longer on the board. That effect cannot be observed, so the model skips it but keeps the callback's other two assignments.
- `flippedCards` holds references to card objects in the source and positions in the model. Each card is a distinct object at a distinct position, so the two are equivalent.
- `gameState.cards` is a growable array filled by `push`; the model builds a fresh array of the final size.
- `WordGame.Game.HandleCardClick`: requires a position on the board. Clicks come only from card elements, and the source does not handle any other index.
- `EndGame`: its `isWin` argument only selects the message shown.
