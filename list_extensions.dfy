/**
 * ListExtensions.Shuffle, a Fisher-Yates shuffle in place. The random index drawn
 * at each step is a nondeterministic choice; the method returns the indices it chose.
 */
module ListExtensions {
  /** The list with the elements at k and n exchanged. */
  function Swap<T>(s: seq<T>, k: nat, n: nat): (r: seq<T>)
    requires k < |s| && n < |s|
    ensures |r| == |s| && r[k] == s[n] && r[n] == s[k]
    ensures forall j :: 0 <= j < |s| && j != k && j != n ==> r[j] == s[j]
  {
    s[k := s[n]][n := s[k]]
  }

  /** Step m of the loop works on n = |s| - 1 - m and may pick any k in [0, n]. */
  predicate PicksInRange(picks: seq<int>, count: nat)
  {
    forall m :: 0 <= m < |picks| ==> 0 <= picks[m] <= count - 1 - m
  }

  /** The picks of a complete run: one per step, and Count - 1 steps when Count >= 1. */
  predicate ValidPicks(picks: seq<int>, count: nat)
  {
    |picks| == (if count > 1 then count - 1 else 0) && PicksInRange(picks, count)
  }

  /** The list after the steps recorded in picks: step m swaps index |s| - 1 - m with picks[m]. */
  function ShuffleSteps<T>(s: seq<T>, picks: seq<int>): (r: seq<T>)
    requires PicksInRange(picks, |s|)
    ensures |r| == |s|
    decreases |picks|
  {
    if |picks| == 0 then s
    else
      var last := |picks| - 1;
      assert PicksInRange(picks[..last], |s|);
      Swap(ShuffleSteps(s, picks[..last]), picks[last], |s| - 1 - last)
  }

  /** Shuffle: while n > 1, decrement n, pick k in [0, n] and swap list[k] with list[n]. */
  method Shuffle<T>(list: array<T>) returns (picks: seq<int>)
    modifies list
    ensures ValidPicks(picks, list.Length)
    ensures list[..] == ShuffleSteps(old(list[..]), picks)
  {
    var n := list.Length;
    picks := [];
    while n > 1
      invariant 0 <= n <= list.Length
      invariant n == list.Length - |picks|
      invariant list.Length > 0 ==> n >= 1
      invariant PicksInRange(picks, list.Length)
      invariant list[..] == ShuffleSteps(old(list[..]), picks)
    {
      n := n - 1;
      var k :| 0 <= k <= n;
      ghost var before := list[..];
      var value := list[k];
      list[k] := list[n];
      list[n] := value;
      assert list[..] == Swap(before, k, n);
      picks := picks + [k];
    }
  }

  lemma SwapPermutes<T>(s: seq<T>, k: nat, n: nat)
    requires k < |s| && n < |s|
    ensures multiset(Swap(s, k, n)) == multiset(s)
  {
    if k != n {
      var t := s[k := s[n]];
      assert multiset(t) == multiset(s) - multiset{s[k]} + multiset{s[n]};
      assert multiset(t[n := s[k]]) == multiset(t) - multiset{t[n]} + multiset{s[k]};
    }
  }

  /** Shuffling keeps the length and the multiset of elements: the result is a permutation. */
  lemma {:induction false} ShuffleIsPermutation<T>(s: seq<T>, picks: seq<int>)
    requires PicksInRange(picks, |s|)
    ensures |ShuffleSteps(s, picks)| == |s|
    ensures multiset(ShuffleSteps(s, picks)) == multiset(s)
    decreases |picks|
  {
    if |picks| > 0 {
      var last := |picks| - 1;
      assert PicksInRange(picks[..last], |s|);
      ShuffleIsPermutation(s, picks[..last]);
      SwapPermutes(ShuffleSteps(s, picks[..last]), picks[last], |s| - 1 - last);
    }
  }

  /** Lists of length 0 or 1 take no step and stay unchanged. */
  lemma ShortListUnchanged<T>(s: seq<T>, picks: seq<int>)
    requires |s| <= 1 && ValidPicks(picks, |s|)
    ensures ShuffleSteps(s, picks) == s
  {
  }

  /**
   * Once step m has placed index |s| - 1 - m, no later step touches it: the suffix
   * from |s| - m is the same after the first m steps and after all of them.
   */
  lemma {:induction false} ShuffleSuffixFixed<T>(s: seq<T>, picks: seq<int>, m: nat)
    requires PicksInRange(picks, |s|) && m <= |picks|
    ensures PicksInRange(picks[..m], |s|)
    ensures |ShuffleSteps(s, picks)| == |s| && |ShuffleSteps(s, picks[..m])| == |s|
    ensures ShuffleSteps(s, picks)[|s| - m..] == ShuffleSteps(s, picks[..m])[|s| - m..]
    decreases |picks|
  {
    assert PicksInRange(picks[..m], |s|);
    if m < |picks| {
      var last := |picks| - 1;
      var prefix := picks[..last];
      assert PicksInRange(prefix, |s|);
      assert prefix[..m] == picks[..m];
      ShuffleSuffixFixed(s, prefix, m);
      var before := ShuffleSteps(s, prefix);
      var after := ShuffleSteps(s, picks);
      assert after == Swap(before, picks[last], |s| - 1 - last);
      assert picks[last] <= |s| - 1 - last < |s| - m;
      assert after[|s| - m..] == before[|s| - m..];
    } else {
      assert picks[..m] == picks;
    }
  }
}
