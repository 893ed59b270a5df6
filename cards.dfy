/**
 * The card record of `gameState.cards` (its DOM element left out), how `createCards` deals a
 * deck, and the per-card updates of `flipCard`, `startGame`, `hideAllCards` and `checkForMatch`.
 */
module Cards {
  import opened Shuffle

  datatype Card = Card(word: string, isFlipped: bool, isMatched: bool)

  /** The words of a deck, position by position. */
  function Words(cs: seq<Card>): seq<string> {
    seq(|cs|, k requires 0 <= k < |cs| => cs[k].word)
  }

  predicate Distinct(ws: seq<string>) {
    forall i, j :: 0 <= i < j < |ws| ==> ws[i] != ws[j]
  }

  // ----- Deck construction (createCards) -----

  /** `words.slice(0, n)`: the first n words, or all of them when there are fewer. */
  function SelectWords(words: seq<string>, n: nat): seq<string> {
    words[..if n <= |words| then n else |words|]
  }

  /** `[...selectedWords, ...selectedWords]`. */
  function WordPairs(words: seq<string>, n: nat): seq<string> {
    SelectWords(words, n) + SelectWords(words, n)
  }

  /** One `{word, isFlipped: false, isMatched: false}` record per word, in order. */
  function Deal(ws: seq<string>): seq<Card> {
    seq(|ws|, k requires 0 <= k < |ws| => Card(ws[k], false, false))
  }

  /** The deck `createCards` builds when the shuffle draws `js`. */
  function BuildDeck(words: seq<string>, n: nat, js: seq<nat>): seq<Card>
    requires ValidChoices(js, |WordPairs(words, n)|)
  {
    Deal(Shuffled(WordPairs(words, n), js))
  }

  lemma {:induction false} DistinctOccursOnce(ws: seq<string>, w: string)
    requires Distinct(ws)
    ensures multiset(ws)[w] == if w in ws then 1 else 0
  {
    if ws != [] {
      assert ws == [ws[0]] + ws[1..];
      assert Distinct(ws[1..]) by {
        forall i, j | 0 <= i < j < |ws[1..]| ensures ws[1..][i] != ws[1..][j] {
          assert ws[1..][i] == ws[i + 1] && ws[1..][j] == ws[j + 1];
        }
      }
      DistinctOccursOnce(ws[1..], w);
      assert ws[0] !in ws[1..] by {
        forall k | 0 <= k < |ws[1..]| ensures ws[1..][k] != ws[0] {
          assert ws[1..][k] == ws[k + 1];
        }
      }
      assert multiset(ws) == multiset{ws[0]} + multiset(ws[1..]);
      assert w in ws <==> w == ws[0] || w in ws[1..];
    }
  }

  /** A freshly built deck has two cards per selected word, all face-down and unmatched, and
      with distinct words each selected word lies on exactly two cards and no other word on any. */
  lemma BuildDeckShape(words: seq<string>, n: nat, js: seq<nat>)
    requires ValidChoices(js, |WordPairs(words, n)|)
    ensures var d := BuildDeck(words, n, js);
      && |d| == 2 * |SelectWords(words, n)|
      && (forall k :: 0 <= k < |d| ==> !d[k].isFlipped && !d[k].isMatched)
      && multiset(Words(d)) == multiset(WordPairs(words, n))
      && (Distinct(SelectWords(words, n)) ==>
            forall w :: multiset(Words(d))[w] == if w in SelectWords(words, n) then 2 else 0)
  {
    var sel := SelectWords(words, n);
    var pairs := WordPairs(words, n);
    ShuffledPermutes(pairs, js);
    var d := BuildDeck(words, n, js);
    assert Words(d) == Shuffled(pairs, js);
    assert multiset(pairs) == multiset(sel) + multiset(sel);
    if Distinct(sel) {
      forall w ensures multiset(Words(d))[w] == if w in sel then 2 else 0 {
        DistinctOccursOnce(sel, w);
      }
    }
  }

  // ----- Per-card updates -----

  /** `flipCard(card, show)` on the card at position i. */
  function SetFlipped(cs: seq<Card>, i: nat, show: bool): seq<Card>
    requires i < |cs|
  {
    cs[i := cs[i].(isFlipped := show)]
  }

  /** `card.isMatched = true` on the card at position i. */
  function SetMatched(cs: seq<Card>, i: nat): seq<Card>
    requires i < |cs|
  {
    cs[i := cs[i].(isMatched := true)]
  }

  function Reveal(c: Card): Card {
    c.(isFlipped := true)
  }

  /** One step of `hideAllCards`: an unmatched card is turned face-down, a matched one kept. */
  function Conceal(c: Card): Card {
    if c.isMatched then c else c.(isFlipped := false)
  }

  /** The `forEach` of `startGame`: every card face-up. */
  function RevealAll(cs: seq<Card>): seq<Card> {
    seq(|cs|, k requires 0 <= k < |cs| => Reveal(cs[k]))
  }

  /** The `forEach` of `hideAllCards`. */
  function ConcealUnmatched(cs: seq<Card>): seq<Card> {
    seq(|cs|, k requires 0 <= k < |cs| => Conceal(cs[k]))
  }

  predicate AllFaceUp(cs: seq<Card>) {
    forall k :: 0 <= k < |cs| ==> cs[k].isFlipped
  }

  /** A matched card is always face-up. */
  predicate MatchedFaceUp(cs: seq<Card>) {
    forall k :: 0 <= k < |cs| ==> cs[k].isMatched ==> cs[k].isFlipped
  }

  // ----- Counting matched cards -----

  /** The number of matched cards. */
  function MatchedCount(cs: seq<Card>): (n: nat)
    ensures n <= |cs|
  {
    if cs == [] then 0 else (if cs[0].isMatched then 1 else 0) + MatchedCount(cs[1..])
  }

  /** Two decks that agree on every card's word and matched mark. */
  predicate SameMarks(s: seq<Card>, t: seq<Card>) {
    |s| == |t| && forall k :: 0 <= k < |s| ==> s[k].word == t[k].word && s[k].isMatched == t[k].isMatched
  }

  /** Changing only face-up state changes neither the words nor the matched count. */
  lemma {:induction false} SameMarksKeep(s: seq<Card>, t: seq<Card>)
    requires SameMarks(s, t)
    ensures Words(s) == Words(t) && MatchedCount(s) == MatchedCount(t)
  {
    if s != [] {
      assert SameMarks(s[1..], t[1..]) by {
        forall k | 0 <= k < |s[1..]|
          ensures s[1..][k].word == t[1..][k].word && s[1..][k].isMatched == t[1..][k].isMatched
        {
          assert s[1..][k] == s[k + 1] && t[1..][k] == t[k + 1];
        }
      }
      SameMarksKeep(s[1..], t[1..]);
    }
  }

  lemma FlipKeepsMarks(cs: seq<Card>, i: nat, show: bool)
    requires i < |cs|
    ensures Words(SetFlipped(cs, i, show)) == Words(cs)
    ensures MatchedCount(SetFlipped(cs, i, show)) == MatchedCount(cs)
  {
    SameMarksKeep(SetFlipped(cs, i, show), cs);
  }

  lemma RevealKeepsMarks(cs: seq<Card>)
    ensures Words(RevealAll(cs)) == Words(cs) && MatchedCount(RevealAll(cs)) == MatchedCount(cs)
  {
    SameMarksKeep(RevealAll(cs), cs);
  }

  lemma ConcealKeepsMarks(cs: seq<Card>)
    ensures Words(ConcealUnmatched(cs)) == Words(cs)
    ensures MatchedCount(ConcealUnmatched(cs)) == MatchedCount(cs)
  {
    SameMarksKeep(ConcealUnmatched(cs), cs);
  }

  /** Marking one unmatched card matched raises the count by exactly one. */
  lemma {:induction false} MatchOneAddsOne(cs: seq<Card>, i: nat)
    requires i < |cs| && !cs[i].isMatched
    ensures MatchedCount(SetMatched(cs, i)) == MatchedCount(cs) + 1
    ensures Words(SetMatched(cs, i)) == Words(cs)
  {
    var t := SetMatched(cs, i);
    assert t[0] == if i == 0 then cs[0].(isMatched := true) else cs[0];
    if i == 0 {
      assert t[1..] == cs[1..];
    } else {
      assert t[1..] == SetMatched(cs[1..], i - 1);
      MatchOneAddsOne(cs[1..], i - 1);
    }
    assert Words(t) == Words(cs);
  }

  /** Marking two distinct unmatched cards matched raises the count by exactly two. */
  lemma MatchPairAddsTwo(cs: seq<Card>, a: nat, b: nat)
    requires a < |cs| && b < |cs| && a != b && !cs[a].isMatched && !cs[b].isMatched
    ensures MatchedCount(SetMatched(SetMatched(cs, a), b)) == MatchedCount(cs) + 2
    ensures Words(SetMatched(SetMatched(cs, a), b)) == Words(cs)
  {
    MatchOneAddsOne(cs, a);
    MatchOneAddsOne(SetMatched(cs, a), b);
  }

  /** A deck whose matched count equals its size has every card matched. */
  lemma {:induction false} FullCountAllMatched(cs: seq<Card>)
    requires MatchedCount(cs) == |cs|
    ensures forall k :: 0 <= k < |cs| ==> cs[k].isMatched
  {
    if cs != [] {
      FullCountAllMatched(cs[1..]);
      forall k | 1 <= k < |cs| ensures cs[k].isMatched {
        assert cs[k] == cs[1..][k - 1];
      }
    }
  }
}
