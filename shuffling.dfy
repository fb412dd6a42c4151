/** The Fisher-Yates (Durstenfeld) shuffle of `decker/deck.py`, with the random
    draws supplied by the caller: `choices[i]` is the number `random.randint(0, i)`
    returns when the pass reaches position `i`. */
module Shuffling {

  /** `choices` holds a legal draw for every position of a sequence of length
      `n` that the shuffle visits (position 0 is never visited). */
  predicate ValidChoices(choices: seq<int>, n: nat)
  {
    n <= |choices| && forall i | 0 < i < n :: 0 <= choices[i] <= i
  }

  function Swap<T>(s: seq<T>, i: nat, j: nat): (r: seq<T>)
    requires i < |s| && j < |s|
  {
    s[i := s[j]][j := s[i]]
  }

  lemma SwapPermutes<T>(s: seq<T>, i: nat, j: nat)
    requires i < |s| && j < |s|
    ensures |Swap(s, i, j)| == |s|
    ensures multiset(Swap(s, i, j)) == multiset(s)
  {
    var t := s[i := s[j]];
    assert multiset(t) == multiset(s) - multiset{s[i]} + multiset{s[j]};
    assert multiset(t[j := s[i]]) == multiset(t) - multiset{t[j]} + multiset{s[i]};
  }

  /** The state reached from `s` by the swap passes for positions i, i-1, ..., 1. */
  function SwapDown<T>(s: seq<T>, choices: seq<int>, i: int): (r: seq<T>)
    requires i < |s| && ValidChoices(choices, |s|)
    ensures |r| == |s|
    decreases i
  {
    if i <= 0 then s else SwapDown(Swap(s, i, choices[i]), choices, i - 1)
  }

  /** The order `shuffle` leaves a sequence in for the given draws. */
  function Shuffled<T>(s: seq<T>, choices: seq<int>): (r: seq<T>)
    requires ValidChoices(choices, |s|)
    ensures |r| == |s|
  {
    SwapDown(s, choices, |s| - 1)
  }

  lemma {:induction false} SwapDownPermutes<T>(s: seq<T>, choices: seq<int>, i: int)
    requires i < |s| && ValidChoices(choices, |s|)
    ensures multiset(SwapDown(s, choices, i)) == multiset(s)
    decreases i
  {
    if i > 0 {
      SwapPermutes(s, i, choices[i]);
      SwapDownPermutes(Swap(s, i, choices[i]), choices, i - 1);
    }
  }

  /** Whatever the draws, shuffling keeps the length and the multiset of
      elements: the result is a permutation of the input. */
  lemma ShuffledIsPermutation<T>(s: seq<T>, choices: seq<int>)
    requires ValidChoices(choices, |s|)
    ensures multiset(Shuffled(s, choices)) == multiset(s)
  {
    SwapDownPermutes(s, choices, |s| - 1);
  }

  /** A sequence of length 0 or 1 is left as it is. */
  lemma ShortUnshuffled<T>(s: seq<T>, choices: seq<int>)
    requires ValidChoices(choices, |s|) && |s| <= 1
    ensures Shuffled(s, choices) == s
  {
  }

  /** `shuffle`: for i from the last position down to 1, swap positions i and
      choices[i]. */
  method Shuffle<T>(a: array<T>, choices: seq<int>)
    requires ValidChoices(choices, a.Length)
    modifies a
    ensures a[..] == Shuffled(old(a[..]), choices)
    ensures multiset(a[..]) == multiset(old(a[..]))
    ensures a.Length <= 1 ==> a[..] == old(a[..])
  {
    var i := a.Length - 1;
    while i > 0
      invariant i < a.Length
      invariant SwapDown(a[..], choices, i) == Shuffled(old(a[..]), choices)
    {
      var r := choices[i];
      ghost var before := a[..];
      a[i], a[r] := a[r], a[i];
      assert a[..] == Swap(before, i, r);
      i := i - 1;
    }
    ShuffledIsPermutation(old(a[..]), choices);
  }
}
