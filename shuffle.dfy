/**
 * The Fisher-Yates shuffle of `shuffleArray`: for i from the last index down to 1, exchange
 * the elements at i and at a drawn index j in [0, i]. The drawing (`Math.random`) is replaced
 * by a sequence of choices supplied by the caller.
 */
module Shuffle {

  /** `js[i]` is the index drawn at step i, so it lies in [0, i]. Step 0 is never taken by the
      loop, and its only possible choice is 0. */
  predicate ValidChoices(js: seq<nat>, n: nat) {
    |js| == n && forall i :: 0 <= i < n ==> js[i] <= i
  }

  /** Exchange of the elements at positions i and j. */
  function Swap<T>(s: seq<T>, i: nat, j: nat): (r: seq<T>)
    requires i < |s| && j < |s|
    ensures |r| == |s| && r[i] == s[j] && r[j] == s[i]
    ensures forall k :: 0 <= k < |s| && k != i && k != j ==> r[k] == s[k]
  {
    s[i := s[j]][j := s[i]]
  }

  lemma SwapPermutes<T>(s: seq<T>, i: nat, j: nat)
    requires i < |s| && j < |s|
    ensures multiset(Swap(s, i, j)) == multiset(s)
  {
  }

  /** Steps i, i - 1, ..., 1 of the downward loop, applied to s. */
  function ShuffleDown<T>(s: seq<T>, js: seq<nat>, i: nat): seq<T>
    requires i < |s| && ValidChoices(js, |s|)
    decreases i
  {
    if i == 0 then s else ShuffleDown(Swap(s, i, js[i]), js, i - 1)
  }

  /** The arrangement the whole loop produces from s. */
  function Shuffled<T>(s: seq<T>, js: seq<nat>): seq<T>
    requires ValidChoices(js, |s|)
  {
    if |s| == 0 then s else ShuffleDown(s, js, |s| - 1)
  }

  lemma {:induction false} ShuffleDownPermutes<T>(s: seq<T>, js: seq<nat>, i: nat)
    requires i < |s| && ValidChoices(js, |s|)
    ensures |ShuffleDown(s, js, i)| == |s|
    ensures multiset(ShuffleDown(s, js, i)) == multiset(s)
    decreases i
  {
    if i > 0 {
      SwapPermutes(s, i, js[i]);
      ShuffleDownPermutes(Swap(s, i, js[i]), js, i - 1);
    }
  }

  /** Steps i down to 1 never touch a position above i. */
  lemma {:induction false} ShuffleDownKeepsAbove<T>(s: seq<T>, js: seq<nat>, i: nat, k: nat)
    requires i < k < |s| && ValidChoices(js, |s|)
    ensures |ShuffleDown(s, js, i)| == |s| && ShuffleDown(s, js, i)[k] == s[k]
    decreases i
  {
    ShuffleDownPermutes(s, js, i);
    if i > 0 {
      ShuffleDownKeepsAbove(Swap(s, i, js[i]), js, i - 1, k);
    }
  }

  /** The shuffle is a permutation: same length, same multiset of elements. */
  lemma ShuffledPermutes<T>(s: seq<T>, js: seq<nat>)
    requires ValidChoices(js, |s|)
    ensures |Shuffled(s, js)| == |s|
    ensures multiset(Shuffled(s, js)) == multiset(s)
  {
    if |s| > 0 {
      ShuffleDownPermutes(s, js, |s| - 1);
    }
  }

  /** The first step settles the last position: it receives the element drawn for it, and
      no later step moves it again. */
  lemma ShuffledLast<T>(s: seq<T>, js: seq<nat>)
    requires |s| > 0 && ValidChoices(js, |s|)
    ensures |Shuffled(s, js)| == |s| && Shuffled(s, js)[|s| - 1] == s[js[|s| - 1]]
  {
    var n := |s|;
    if n > 1 {
      ShuffleDownKeepsAbove(Swap(s, n - 1, js[n - 1]), js, n - 2, n - 1);
    }
  }

  /** `shuffleArray`: the downward swap loop on the array itself. */
  method ShuffleArray<T>(a: array<T>, js: seq<nat>)
    requires ValidChoices(js, a.Length)
    modifies a
    ensures a[..] == Shuffled(old(a[..]), js)
    ensures multiset(a[..]) == multiset(old(a[..]))
  {
    var i: int := a.Length - 1;
    while i > 0
      invariant -1 <= i < a.Length
      invariant a.Length > 0 ==> 0 <= i && ShuffleDown(a[..], js, i) == Shuffled(old(a[..]), js)
    {
      var j := js[i];
      ghost var before := a[..];
      a[i], a[j] := a[j], a[i];
      assert a[..] == Swap(before, i, j);
      i := i - 1;
    }
    if a.Length == 0 {
      assert a[..] == [] == old(a[..]);
    }
    ShuffledPermutes(old(a[..]), js);
  }
}
