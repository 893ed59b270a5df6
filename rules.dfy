/**
 * The rules of the game as pure steps on a snapshot of `gameState`: one function per handler
 * of word_guessing_game.js, the invariant every step keeps, and what each step promises.
 * The class in module WordGame performs the same steps in place and is proved against these.
 */
module GameRules {
  import opened Options
  import opened Shuffle
  import opened Cards

  // ----- CONFIG -----

  const INITIAL_TIME := 20
  const CARD_PAIRS := 8
  /** Delay of the memorize timeout, in milliseconds. */
  const MEMORY_TIME := 3000
  /** Period of the countdown interval, in milliseconds. */
  const TICK_TIME := 1000
  const MIN_TIME := 5
  const MAX_TIME := 60
  /** Points `checkForMatch` awards per matched pair. */
  const PAIR_POINTS := 10
  const WORDS: seq<string> := [
    "사과", "바나나", "딸기", "포도", "수박", "오렌지", "키위", "파인애플",
    "복숭아", "자두", "망고", "체리", "레몬", "자몽", "멜론", "블루베리"
  ]
  const DECK_SIZE := 2 * CARD_PAIRS

  // ----- State -----

  /** The 1 s mismatch callback: the round whose deck it captured, and the two positions. */
  datatype Pending = Pending(round: nat, first: nat, second: nat)

  /**
   * A snapshot of `gameState` (`timer` is `intervalArmed`; `flipped` holds positions of the
   * selected cards) together with the scheduled callbacks: `memorizePending` for the memorize
   * timeout, `ticks` for the countdown ticks since `startGame`, `mismatch` for the mismatch
   * callback, and `round` counting the decks built so far.
   */
  datatype View = View(
    cards: seq<Card>, flipped: seq<nat>, matchedPairs: int, score: int, timeLeft: int,
    intervalArmed: bool, isGameStarted: bool, canFlip: bool,
    round: nat, memorizePending: bool, ticks: nat, mismatch: Option<Pending>)

  /** The `gameState` literal as the page loads, before the first `initGame`. */
  function LoadView(): View {
    View([], [], 0, 0, INITIAL_TIME, false, false, false, 0, false, 0, None)
  }

  /** The selection: at most two distinct positions of face-up, unmatched cards. */
  predicate SelectionOk(cs: seq<Card>, sel: seq<nat>) {
    && |sel| <= 2
    && (forall k :: 0 <= k < |sel| ==> sel[k] < |cs| && cs[sel[k]].isFlipped && !cs[sel[k]].isMatched)
    && (|sel| == 2 ==> sel[0] != sel[1])
  }

  /** What the steps need to index the deck. */
  predicate WellFormed(v: View) {
    && (forall k :: 0 <= k < |v.flipped| ==> v.flipped[k] < |v.cards|)
    && (v.mismatch.Some? && v.mismatch.value.round == v.round ==>
          v.mismatch.value.first < |v.cards| && v.mismatch.value.second < |v.cards|)
  }

  /** The invariant between any two handlers. */
  predicate Inv(v: View) {
    && |v.cards| == DECK_SIZE
    && multiset(Words(v.cards)) == multiset(WordPairs(WORDS, CARD_PAIRS))
    && SelectionOk(v.cards, v.flipped)
    && MatchedFaceUp(v.cards)
    && v.score == PAIR_POINTS * v.matchedPairs
    && MatchedCount(v.cards) == 2 * v.matchedPairs
    && v.intervalArmed == v.isGameStarted
    && (v.mismatch.Some? ==> !v.canFlip && v.mismatch.value.round <= v.round)
    && (v.mismatch.Some? && v.mismatch.value.round == v.round ==>
          v.flipped == [v.mismatch.value.first, v.mismatch.value.second])
    && (v.memorizePending ==>
          && v.isGameStarted && v.flipped == [] && AllFaceUp(v.cards)
          && v.ticks <= MEMORY_TIME / TICK_TIME && v.timeLeft + v.ticks >= MIN_TIME)
  }

  // ----- Small steps -----

  /** `parseInt(gameTimeInput.value) || CONFIG.INITIAL_TIME`: no number, or 0, gives 20. */
  function ParseTime(input: Option<int>): int {
    match input
    case None => INITIAL_TIME
    case Some(t) => if t == 0 then INITIAL_TIME else t
  }

  /** `Math.min(Math.max(5, selectedTime), 60)`. */
  function ClampTime(input: Option<int>): (t: int)
    ensures MIN_TIME <= t <= MAX_TIME
    ensures MIN_TIME <= ParseTime(input) <= MAX_TIME ==> t == ParseTime(input)
    ensures ParseTime(input) < MIN_TIME ==> t == MIN_TIME
    ensures ParseTime(input) > MAX_TIME ==> t == MAX_TIME
    ensures input.None? || input == Some(0) ==> t == INITIAL_TIME
  {
    var selected := ParseTime(input);
    var atLeast := if selected < MIN_TIME then MIN_TIME else selected;
    if atLeast < MAX_TIME then atLeast else MAX_TIME
  }

  /** `endGame`: clear the interval and stop the game (its argument only picks the message). */
  function EndStep(v: View): View {
    v.(intervalArmed := false, isGameStarted := false, canFlip := false)
  }

  /** `updateTimer`: end the game once the time is used up. */
  function UpdateTimerStep(v: View): View {
    if v.timeLeft <= 0 then EndStep(v) else v
  }

  // ----- Handlers -----

  /** `initGame` with the parsed time input and the shuffle's draws. */
  function InitStep(v: View, input: Option<int>, js: seq<nat>): View
    requires ValidChoices(js, DECK_SIZE)
  {
    var reset := v.(cards := [], flipped := [], matchedPairs := 0, score := 0,
                    timeLeft := ParseTime(input), isGameStarted := false, canFlip := false);
    var timed := UpdateTimerStep(reset.(score := reset.score + 0));
    timed.(cards := BuildDeck(WORDS, CARD_PAIRS, js), round := v.round + 1)
  }

  /** `startGame`: nothing once started; otherwise reveal every card, set the clamped time and
      arm the countdown and the memorize timeout. */
  function StartStep(v: View, input: Option<int>): View {
    if v.isGameStarted then v
    else
      var shown := v.(isGameStarted := true, cards := RevealAll(v.cards), timeLeft := ClampTime(input));
      UpdateTimerStep(shown).(intervalArmed := true, ticks := 0, memorizePending := true)
  }

  /** The start button: `initGame(); startGame();` unless a game is running. */
  function StartButtonStep(v: View, input: Option<int>, js: seq<nat>): View
    requires ValidChoices(js, DECK_SIZE)
  {
    if v.isGameStarted then v else StartStep(InitStep(v, input, js), input)
  }

  /** Whether `handleCardClick` accepts a click on position i. */
  predicate Accepts(v: View, i: nat)
    requires i < |v.cards|
  {
    v.canFlip && |v.flipped| < 2 && !v.cards[i].isFlipped && !v.cards[i].isMatched
  }

  /** `checkForMatch` on the two selected cards. */
  function MatchStep(v: View): View
    requires |v.flipped| == 2 && v.flipped[0] < |v.cards| && v.flipped[1] < |v.cards|
  {
    var a, b := v.flipped[0], v.flipped[1];
    if v.cards[a].word == v.cards[b].word then
      var marked := v.(cards := SetMatched(SetMatched(v.cards, a), b),
                       matchedPairs := v.matchedPairs + 1, score := v.score + PAIR_POINTS);
      var checked := if marked.matchedPairs == CARD_PAIRS then EndStep(marked) else marked;
      checked.(flipped := [])
    else
      v.(canFlip := false, mismatch := Some(Pending(v.round, a, b)))
  }

  /** `handleCardClick` on the card at position i. */
  function ClickStep(v: View, i: nat): View
    requires i < |v.cards| && WellFormed(v)
  {
    if !v.canFlip || |v.flipped| >= 2 then v
    else if v.cards[i].isFlipped || v.cards[i].isMatched then v
    else
      var w := Select(v, i);
      if |w.flipped| == 2 then MatchStep(w) else w
  }

  /** `flipCard(card, true); gameState.flippedCards.push(card);`. */
  function Select(v: View, i: nat): View
    requires i < |v.cards|
  {
    v.(cards := SetFlipped(v.cards, i, true), flipped := v.flipped + [i])
  }

  /** The mismatch callback: turn its two cards face-down (when they belong to the current
      deck; a discarded deck is no longer observable), empty the selection, allow flipping. */
  function MismatchStep(v: View): View
    requires v.mismatch.Some? && WellFormed(v)
  {
    var p := v.mismatch.value;
    var cs := if p.round == v.round then SetFlipped(SetFlipped(v.cards, p.first, false), p.second, false)
              else v.cards;
    v.(cards := cs, flipped := [], canFlip := true, mismatch := None)
  }

  /** `hideAllCards`. */
  function HideStep(v: View): View {
    v.(cards := ConcealUnmatched(v.cards), canFlip := true)
  }

  /** The memorize timeout: `if (gameState.isGameStarted) hideAllCards();`. */
  function MemorizeStep(v: View): View {
    var fired := v.(memorizePending := false);
    if fired.isGameStarted then HideStep(fired) else fired
  }

  /** One countdown tick: decrement, `updateTimer`, then the interval's own end check. */
  function TickStep(v: View): View {
    var timed := UpdateTimerStep(v.(timeLeft := v.timeLeft - 1, ticks := v.ticks + 1));
    if timed.timeLeft <= 0 then EndStep(timed.(intervalArmed := false)) else timed
  }

  // ----- When the environment may fire a callback -----

  /** The countdown fires only while armed, and at most MEMORY_TIME / TICK_TIME times before
      the memorize timeout that `startGame` set at the same moment. */
  predicate TickMayFire(v: View) {
    v.intervalArmed && (v.memorizePending ==> v.ticks < MEMORY_TIME / TICK_TIME)
  }

  /** The memorize timeout fires once per `startGame`, and never while a mismatch callback is
      pending (that callback is at most 1 s old, the timeout 3 s). */
  predicate MemorizeMayFire(v: View) {
    v.memorizePending && v.mismatch.None?
  }

  /** What the start-button handler guarantees when it calls `initGame`. */
  predicate Resettable(v: View) {
    !v.isGameStarted && !v.intervalArmed && !v.memorizePending
      && (v.mismatch.Some? ==> v.mismatch.value.round <= v.round)
  }

  // ----- The invariant is kept -----

  lemma InvResettable(v: View)
    requires Inv(v) && !v.isGameStarted
    ensures Resettable(v)
  {
  }

  lemma InitEstablishesInv(v: View, input: Option<int>, js: seq<nat>)
    requires Resettable(v) && ValidChoices(js, DECK_SIZE)
    ensures Inv(InitStep(v, input, js))
  {
    BuildDeckShape(WORDS, CARD_PAIRS, js);
    var d := BuildDeck(WORDS, CARD_PAIRS, js);
    assert MatchedCount(d) == 0 by {
      NoneMatchedCountsZero(d);
    }
  }

  lemma {:induction false} NoneMatchedCountsZero(cs: seq<Card>)
    requires forall k :: 0 <= k < |cs| ==> !cs[k].isMatched
    ensures MatchedCount(cs) == 0
  {
    if cs != [] {
      assert forall k :: 0 <= k < |cs[1..]| ==> cs[1..][k] == cs[k + 1];
      NoneMatchedCountsZero(cs[1..]);
    }
  }

  lemma StartPreservesInv(v: View, input: Option<int>)
    requires Inv(v) && (!v.isGameStarted ==> v.flipped == [])
    ensures Inv(StartStep(v, input))
  {
    RevealKeepsMarks(v.cards);
  }

  lemma SelectPreservesInv(v: View, i: nat)
    requires Inv(v) && i < |v.cards| && Accepts(v, i)
    ensures Inv(Select(v, i)) && Select(v, i).canFlip
  {
    FlipKeepsMarks(v.cards, i, true);
  }

  lemma MatchPreservesInv(v: View)
    requires Inv(v) && |v.flipped| == 2 && v.canFlip
    ensures Inv(MatchStep(v))
  {
    var a, b := v.flipped[0], v.flipped[1];
    if v.cards[a].word == v.cards[b].word {
      MatchPairAddsTwo(v.cards, a, b);
    }
  }

  lemma ClickPreservesInv(v: View, i: nat)
    requires Inv(v) && i < |v.cards|
    ensures WellFormed(v) && Inv(ClickStep(v, i))
  {
    if Accepts(v, i) {
      SelectPreservesInv(v, i);
      if |Select(v, i).flipped| == 2 {
        MatchPreservesInv(Select(v, i));
      }
    }
  }

  lemma MismatchPreservesInv(v: View)
    requires Inv(v) && v.mismatch.Some?
    ensures WellFormed(v) && Inv(MismatchStep(v))
  {
    var p := v.mismatch.value;
    if p.round == v.round {
      FlipKeepsMarks(v.cards, p.first, false);
      FlipKeepsMarks(SetFlipped(v.cards, p.first, false), p.second, false);
    }
  }

  lemma MemorizePreservesInv(v: View)
    requires Inv(v) && MemorizeMayFire(v)
    ensures Inv(MemorizeStep(v))
  {
    ConcealKeepsMarks(v.cards);
  }

  lemma TickPreservesInv(v: View)
    requires Inv(v) && TickMayFire(v)
    ensures Inv(TickStep(v))
  {
  }

  lemma StartButtonPreservesInv(v: View, input: Option<int>, js: seq<nat>)
    requires Inv(v) && ValidChoices(js, DECK_SIZE)
    ensures Inv(StartButtonStep(v, input, js))
  {
    if !v.isGameStarted {
      InitEstablishesInv(v, input, js);
      StartPreservesInv(InitStep(v, input, js), input);
    }
  }
}
