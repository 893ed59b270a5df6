/**
 * What the handlers of word_guessing_game.js promise, stated over the pure steps of
 * GameRules for every state that satisfies the invariant.
 */
module GameProperties {
  import opened Options
  import opened Shuffle
  import opened Cards
  import opened GameRules

  /** The eight words in play are pairwise different. */
  lemma SelectedWordsDistinct()
    ensures Distinct(SelectWords(WORDS, CARD_PAIRS))
  {
  }

  /** The score is ten points per matched pair, and no more pairs than the deck holds are
      matched; once all are, every card is matched. */
  lemma ScoreTracksPairs(v: View)
    requires Inv(v)
    ensures v.score == PAIR_POINTS * v.matchedPairs
    ensures 0 <= v.matchedPairs <= CARD_PAIRS
    ensures v.matchedPairs == CARD_PAIRS ==> forall k :: 0 <= k < |v.cards| ==> v.cards[k].isMatched
  {
    if v.matchedPairs == CARD_PAIRS {
      FullCountAllMatched(v.cards);
    }
  }

  /** Throughout a round each of the first CARD_PAIRS words lies on exactly two cards, and no
      other word on any card. */
  lemma DeckWordsTwice(v: View)
    requires Inv(v)
    ensures forall w :: multiset(Words(v.cards))[w] == if w in SelectWords(WORDS, CARD_PAIRS) then 2 else 0
  {
    var sel := SelectWords(WORDS, CARD_PAIRS);
    SelectedWordsDistinct();
    assert multiset(WordPairs(WORDS, CARD_PAIRS)) == multiset(sel) + multiset(sel);
    forall w ensures multiset(Words(v.cards))[w] == if w in sel then 2 else 0 {
      DistinctOccursOnce(sel, w);
    }
  }

  /** `initGame` deals a fresh deck of 2 x CARD_PAIRS face-down, unmatched cards, empties the
      selection, zeroes score and pairs, stops input and takes the unclamped time input. */
  lemma InitDeals(v: View, input: Option<int>, js: seq<nat>)
    requires Resettable(v) && ValidChoices(js, DECK_SIZE)
    ensures var r := InitStep(v, input, js);
      && |r.cards| == DECK_SIZE
      && (forall k :: 0 <= k < |r.cards| ==> !r.cards[k].isFlipped && !r.cards[k].isMatched)
      && (forall w :: multiset(Words(r.cards))[w] == if w in SelectWords(WORDS, CARD_PAIRS) then 2 else 0)
      && r.flipped == [] && r.matchedPairs == 0 && r.score == 0
      && r.timeLeft == ParseTime(input)
      && !r.isGameStarted && !r.canFlip && !r.intervalArmed
  {
    BuildDeckShape(WORDS, CARD_PAIRS, js);
    InitEstablishesInv(v, input, js);
    DeckWordsTwice(InitStep(v, input, js));
  }

  /** A click changes the state exactly when it is accepted: input enabled, fewer than two
      cards selected, and the target neither face-up nor matched. */
  lemma ClickChangesIffAccepted(v: View, i: nat)
    requires Inv(v) && i < |v.cards|
    ensures WellFormed(v) && (ClickStep(v, i) == v <==> !Accepts(v, i))
  {
  }

  /** An accepted click turns exactly the target face-up and appends it to the selection,
      which stays at most two face-up, unmatched cards. */
  lemma AcceptedClickSelects(v: View, i: nat)
    requires Inv(v) && i < |v.cards| && Accepts(v, i)
    ensures var r := ClickStep(v, i);
      && |r.cards| == |v.cards| && r.cards[i].isFlipped
      && (forall k :: 0 <= k < |v.cards| && k != i && k !in v.flipped ==> r.cards[k] == v.cards[k])
      && SelectionOk(r.cards, r.flipped)
      && (v.flipped == [] ==> r.flipped == [i] && r.cards == SetFlipped(v.cards, i, true)
                              && r.score == v.score && r.canFlip)
  {
    ClickPreservesInv(v, i);
  }

  /** A second click on a card with the same word as the first: both are matched, one more
      pair and ten more points, the selection is emptied, and the last pair ends the game. */
  lemma MatchingClick(v: View, i: nat)
    requires Inv(v) && i < |v.cards| && Accepts(v, i) && |v.flipped| == 1
    requires v.cards[v.flipped[0]].word == v.cards[i].word
    ensures var r := ClickStep(v, i);
      && r.cards[v.flipped[0]].isMatched && r.cards[i].isMatched
      && r.matchedPairs == v.matchedPairs + 1 && r.score == v.score + PAIR_POINTS
      && r.flipped == []
      && (r.matchedPairs == CARD_PAIRS ==>
            && !r.isGameStarted && !r.canFlip && !r.intervalArmed
            && forall k :: 0 <= k < |r.cards| ==> r.cards[k].isMatched)
      && (r.matchedPairs != CARD_PAIRS ==> r.isGameStarted == v.isGameStarted && r.canFlip)
  {
    ClickPreservesInv(v, i);
    ScoreTracksPairs(ClickStep(v, i));
  }

  /** A second click on a card with another word: input is locked and the mismatch callback is
      armed with both cards, which stay face-up; score and pairs do not change. */
  lemma MismatchingClick(v: View, i: nat)
    requires Inv(v) && i < |v.cards| && Accepts(v, i) && |v.flipped| == 1
    requires v.cards[v.flipped[0]].word != v.cards[i].word
    ensures var r := ClickStep(v, i);
      && !r.canFlip && r.mismatch == Some(Pending(v.round, v.flipped[0], i))
      && r.flipped == [v.flipped[0], i]
      && r.cards[v.flipped[0]].isFlipped && r.cards[i].isFlipped
      && r.score == v.score && r.matchedPairs == v.matchedPairs
  {
  }

  /** The mismatch callback turns exactly its two cards face-down again, empties the selection
      and re-enables input, leaving score and pairs alone. */
  lemma MismatchSettles(v: View)
    requires Inv(v) && v.mismatch.Some? && v.mismatch.value.round == v.round
    ensures WellFormed(v)
    ensures var r := MismatchStep(v); var p := v.mismatch.value;
      && |r.cards| == |v.cards|
      && !r.cards[p.first].isFlipped && !r.cards[p.second].isFlipped
      && r.cards[p.first] == v.cards[p.first].(isFlipped := false)
      && r.cards[p.second] == v.cards[p.second].(isFlipped := false)
      && (forall k :: 0 <= k < |v.cards| && k != p.first && k != p.second ==> r.cards[k] == v.cards[k])
      && r.flipped == [] && r.canFlip && r.mismatch.None?
      && r.score == v.score && r.matchedPairs == v.matchedPairs && r.isGameStarted == v.isGameStarted
  {
  }

  /** As written, the callback also re-enables input when the game has ended in the meantime. */
  lemma MismatchAfterEndReenablesInput(v: View)
    requires Inv(v) && v.mismatch.Some? && !v.isGameStarted
    ensures WellFormed(v) && MismatchStep(v).canFlip && !MismatchStep(v).isGameStarted
  {
  }

  /** `startGame` does nothing once started; otherwise it starts with the clamped time, every
      card face-up, the countdown and the memorize timeout armed, and score and pairs kept. */
  lemma StartReveals(v: View, input: Option<int>)
    requires Inv(v) && (!v.isGameStarted ==> v.flipped == [])
    ensures var r := StartStep(v, input);
      && (v.isGameStarted ==> r == v)
      && (!v.isGameStarted ==>
            && r.isGameStarted && r.intervalArmed && r.memorizePending
            && MIN_TIME <= r.timeLeft <= MAX_TIME && r.timeLeft == ClampTime(input)
            && AllFaceUp(r.cards) && Words(r.cards) == Words(v.cards)
            && MatchedCount(r.cards) == MatchedCount(v.cards)
            && (forall k :: 0 <= k < |r.cards| ==> r.cards[k].isMatched == v.cards[k].isMatched)
            && r.score == v.score && r.matchedPairs == v.matchedPairs && r.canFlip == v.canFlip)
  {
    RevealKeepsMarks(v.cards);
  }

  /** The memorize timeout turns every unmatched card face-down, leaves matched ones face-up,
      and enables input. */
  lemma MemorizeHidesUnmatched(v: View)
    requires Inv(v) && MemorizeMayFire(v)
    ensures var r := MemorizeStep(v);
      && |r.cards| == |v.cards|
      && (forall k :: 0 <= k < |r.cards| ==> (r.cards[k].isFlipped <==> r.cards[k].isMatched))
      && (forall k :: 0 <= k < |r.cards| ==> r.cards[k].isMatched == v.cards[k].isMatched)
      && r.canFlip && !r.memorizePending
  {
  }

  /** Each tick takes exactly one second off; when the time is used up the game stops. */
  lemma TickCountsDown(v: View)
    requires Inv(v) && TickMayFire(v)
    ensures var r := TickStep(v);
      && r.timeLeft == v.timeLeft - 1
      && (r.timeLeft <= 0 ==> !r.isGameStarted && !r.canFlip && !r.intervalArmed)
      && (r.timeLeft > 0 ==> r == v.(timeLeft := v.timeLeft - 1, ticks := v.ticks + 1))
      && r.score == v.score && r.cards == v.cards
  {
  }

  /** Ending a game that has ended changes nothing. */
  lemma EndGameIdempotent(v: View)
    ensures EndStep(EndStep(v)) == EndStep(v)
    ensures !EndStep(v).isGameStarted && !EndStep(v).canFlip && !EndStep(v).intervalArmed
  {
  }
}
