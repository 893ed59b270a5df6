/**
 * `gameState` and the handlers of word_guessing_game.js as a class whose methods update its
 * fields in place. Each handler is proved to perform the matching step of GameRules on the
 * snapshot `State()` and to keep the invariant `Valid()`. The timers' callbacks are methods
 * the environment calls: `Tick`, `MismatchTimeout` and `MemorizeTimeout`.
 */
module WordGame {
  import opened Options
  import opened Shuffle
  import opened Cards
  import opened GameRules

  class Game {
    var cards: array<Card>
    /** Positions of the selected cards (`gameState.flippedCards`). */
    var flippedCards: seq<nat>
    var matchedPairs: int
    var score: int
    var timeLeft: int
    /** Whether the countdown interval `gameState.timer` is armed. */
    var intervalArmed: bool
    var isGameStarted: bool
    var canFlip: bool
    // The scheduled callbacks and the deck count they refer to.
    var round: nat
    var memorizePending: bool
    var ticksSinceStart: nat
    var mismatchPending: Option<Pending>

    function State(): View
      reads this, cards
    {
      View(cards[..], flippedCards, matchedPairs, score, timeLeft, intervalArmed, isGameStarted,
           canFlip, round, memorizePending, ticksSinceStart, mismatchPending)
    }

    ghost predicate Valid()
      reads this, cards
    {
      Inv(State())
    }

    /** Page load: the `gameState` literal, then the closing `initGame()` call. */
    constructor (input: Option<int>, js: seq<nat>)
      requires ValidChoices(js, DECK_SIZE)
      ensures Valid() && fresh(cards)
      ensures State() == InitStep(LoadView(), input, js)
    {
      cards := new Card[0];
      flippedCards := [];
      matchedPairs := 0;
      score := 0;
      timeLeft := INITIAL_TIME;
      intervalArmed := false;
      isGameStarted := false;
      canFlip := false;
      round := 0;
      memorizePending := false;
      ticksSinceStart := 0;
      mismatchPending := None;
      new;
      assert State() == LoadView();
      InitGame(input, js);
    }

    /** `initGame`. */
    method InitGame(input: Option<int>, js: seq<nat>)
      requires Resettable(State()) && ValidChoices(js, DECK_SIZE)
      modifies this
      ensures Valid() && fresh(cards)
      ensures State() == InitStep(old(State()), input, js)
    {
      InitEstablishesInv(State(), input, js);
      cards := new Card[0];
      round := round + 1;  // the previous deck is discarded
      flippedCards := [];
      matchedPairs := 0;
      score := 0;
      timeLeft := ParseTime(input);
      isGameStarted := false;
      canFlip := false;
      UpdateScore(0);
      UpdateTimer();
      CreateCards(js);
    }

    /** `createCards`: shuffle the doubled word list in place, then add one record per word. */
    method CreateCards(js: seq<nat>)
      requires ValidChoices(js, DECK_SIZE)
      modifies this`cards
      ensures fresh(cards)
      ensures State() == old(State()).(cards := BuildDeck(WORDS, CARD_PAIRS, js))
    {
      var selectedWords := SelectWords(WORDS, CARD_PAIRS);
      var pairs := selectedWords + selectedWords;
      var wordPairs := new string[|pairs|](k requires 0 <= k < |pairs| => pairs[k]);
      assert wordPairs[..] == WordPairs(WORDS, CARD_PAIRS);
      ShuffleArray(wordPairs, js);
      cards := DealCards(wordPairs);
    }

    /** The `forEach` of `createCards`: one face-down, unmatched record per word. */
    static method DealCards(words: array<string>) returns (deck: array<Card>)
      ensures fresh(deck) && deck[..] == Deal(words[..])
    {
      deck := new Card[words.Length];
      for k := 0 to words.Length
        invariant forall m :: 0 <= m < k ==> deck[m] == Card(words[m], false, false)
        modifies deck
      {
        deck[k] := Card(words[k], false, false);
      }
      assert deck[..] == Deal(words[..]);
    }

    /** `flipCard` on the card at position i. */
    method FlipCard(i: nat, show: bool)
      requires i < cards.Length
      modifies cards
      ensures State() == old(State()).(cards := SetFlipped(old(cards[..]), i, show))
    {
      cards[i] := cards[i].(isFlipped := show);
    }

    /** `updateScore`. */
    method UpdateScore(points: int)
      modifies this`score
      ensures State() == old(State()).(score := old(score) + points)
    {
      score := score + points;
    }

    /** `updateTimer`. */
    method UpdateTimer()
      modifies this`intervalArmed, this`isGameStarted, this`canFlip
      ensures State() == UpdateTimerStep(old(State()))
    {
      if timeLeft <= 0 {
        EndGame(false);
      }
    }

    /** `endGame`; `isWin` only chooses the message shown. */
    method EndGame(isWin: bool)
      modifies this`intervalArmed, this`isGameStarted, this`canFlip
      ensures State() == EndStep(old(State()))
    {
      intervalArmed := false;  // clearInterval(gameState.timer)
      isGameStarted := false;
      canFlip := false;
    }

    /** `handleCardClick` on the card at position i. */
    method HandleCardClick(i: nat)
      requires Valid() && i < cards.Length
      modifies this, cards
      ensures Valid() && cards == old(cards)
      ensures WellFormed(old(State())) && State() == ClickStep(old(State()), i)
    {
      ClickPreservesInv(State(), i);
      if !canFlip || |flippedCards| >= 2 {
        return;
      }
      if cards[i].isFlipped || cards[i].isMatched {
        return;
      }
      FlipCard(i, true);
      flippedCards := flippedCards + [i];
      if |flippedCards| == 2 {
        CheckForMatch();
      }
    }

    /** `checkForMatch`; on a mismatch it arms the 1 s callback with both cards. */
    method CheckForMatch()
      requires |flippedCards| == 2 && flippedCards[0] < cards.Length && flippedCards[1] < cards.Length
      modifies this, cards
      ensures cards == old(cards)
      ensures State() == MatchStep(old(State()))
    {
      var first, second := flippedCards[0], flippedCards[1];
      if cards[first].word == cards[second].word {
        cards[first] := cards[first].(isMatched := true);
        cards[second] := cards[second].(isMatched := true);
        matchedPairs := matchedPairs + 1;
        UpdateScore(PAIR_POINTS);
        if matchedPairs == CARD_PAIRS {
          EndGame(true);
        }
        flippedCards := [];
      } else {
        canFlip := false;
        mismatchPending := Some(Pending(round, first, second));
      }
    }

    /** The mismatch callback, 1 s after a mismatch. */
    method MismatchTimeout()
      requires Valid() && mismatchPending.Some?
      modifies this, cards
      ensures Valid() && cards == old(cards)
      ensures WellFormed(old(State())) && State() == MismatchStep(old(State()))
    {
      MismatchPreservesInv(State());
      var p := mismatchPending.value;
      mismatchPending := None;
      if p.round == round {
        FlipCard(p.first, false);
        FlipCard(p.second, false);
      }
      flippedCards := [];
      canFlip := true;
    }

    /** `startGame`, with the parsed time input. */
    method StartGame(input: Option<int>)
      requires Valid() && (!isGameStarted ==> flippedCards == [])
      modifies this, cards
      ensures Valid() && cards == old(cards)
      ensures State() == StartStep(old(State()), input)
    {
      StartPreservesInv(State(), input);
      if isGameStarted {
        return;
      }
      var validTime := ClampTime(input);
      isGameStarted := true;
      ghost var before := cards[..];
      for k := 0 to cards.Length
        invariant forall m :: 0 <= m < k ==> cards[m] == Reveal(before[m])
        invariant forall m :: k <= m < cards.Length ==> cards[m] == before[m]
        modifies cards
      {
        FlipCard(k, true);
      }
      assert cards[..] == RevealAll(before);
      timeLeft := validTime;
      UpdateTimer();
      intervalArmed := true;  // setInterval(...)
      ticksSinceStart := 0;
      memorizePending := true;  // setTimeout(..., CONFIG.MEMORY_TIME)
    }

    /** The countdown interval's callback. */
    method Tick()
      requires Valid() && TickMayFire(State())
      modifies this
      ensures Valid()
      ensures State() == TickStep(old(State()))
    {
      TickPreservesInv(State());
      timeLeft := timeLeft - 1;
      ticksSinceStart := ticksSinceStart + 1;
      UpdateTimer();
      if timeLeft <= 0 {
        intervalArmed := false;  // clearInterval(gameState.timer)
        EndGame(false);
      }
    }

    /** The memorize timeout's callback. */
    method MemorizeTimeout()
      requires Valid() && MemorizeMayFire(State())
      modifies this, cards
      ensures Valid() && cards == old(cards)
      ensures State() == MemorizeStep(old(State()))
    {
      MemorizePreservesInv(State());
      memorizePending := false;
      if isGameStarted {
        HideAllCards();
      }
    }

    /** `hideAllCards`. */
    method HideAllCards()
      modifies this, cards
      ensures cards == old(cards)
      ensures State() == HideStep(old(State()))
    {
      ghost var before := cards[..];
      for k := 0 to cards.Length
        invariant forall m :: 0 <= m < k ==> cards[m] == Conceal(before[m])
        invariant forall m :: k <= m < cards.Length ==> cards[m] == before[m]
        modifies cards
      {
        if !cards[k].isMatched {
          FlipCard(k, false);
        }
      }
      assert cards[..] == ConcealUnmatched(before);
      canFlip := true;
    }

    /** The start button's click listener. */
    method StartButton(input: Option<int>, js: seq<nat>)
      requires Valid() && ValidChoices(js, DECK_SIZE)
      modifies this, cards
      ensures Valid()
      ensures State() == StartButtonStep(old(State()), input, js)
    {
      if !isGameStarted {
        InvResettable(State());
        InitGame(input, js);
        StartGame(input);
      }
    }
  }
}
