/**
 * BehaviorCollection: the behaviour set of a render object. It is itself a
 * behaviour (its own StartTime and Finished, AutoStart set, no loop and no next
 * node) whose step ticks every contained chain once, in list order, and only
 * after that loop removes the chains that reported done.
 */
module BehaviorCollection {
  import opened Behavior

  /** Every contained chain is non-empty and well typed. */
  predicate ValidChains(chains: seq<seq<Node>>)
  {
    forall j :: 0 <= j < |chains| ==> 0 < |chains[j]| && WellFormedChain(chains[j])
  }

  /** The collection's own state as a value. */
  datatype BehaviorSet = BehaviorSet(startTime: int, finished: bool, chains: seq<seq<Node>>)

  /** The result of the tick-all loop: every chain's new state and result, and the effects. */
  datatype SetTick = SetTick(chains: seq<seq<Node>>, results: seq<bool>, eff: Effects)

  /** The foreach loop: chain j is ticked once, with the effects left by chains 0..j-1. */
  function TickChains(chains: seq<seq<Node>>, env: Env, eff: Effects): (r: SetTick)
    requires ValidChains(chains)
    ensures |r.chains| == |chains| && |r.results| == |chains| && ValidChains(r.chains)
    decreases |chains|
  {
    if |chains| == 0 then SetTick([], [], eff)
    else
      var last := |chains| - 1;
      var before := TickChains(chains[..last], env, eff);
      var t := UpdateObject(chains[last], 0, env, before.eff);
      SetTick(before.chains + [t.nodes], before.results + [t.done], t.eff)
  }

  /** The chains whose tick did not report done, in their original order. */
  function Survivors<T>(chains: seq<T>, results: seq<bool>): (r: seq<T>)
    requires |results| == |chains|
    ensures |r| <= |chains|
    ensures forall c :: c in r ==> c in chains
    decreases |chains|
  {
    if |chains| == 0 then []
    else
      var last := |chains| - 1;
      Survivors(chains[..last], results[..last]) + (if results[last] then [] else [chains[last]])
  }

  /** UpdateOjectInternal of the collection: tick all, prune, report whether the list is now empty. */
  function UpdateInternal(chains: seq<seq<Node>>, env: Env, eff: Effects): (r: (seq<seq<Node>>, bool, Effects))
    requires ValidChains(chains)
    ensures ValidChains(r.0)
    ensures r.1 <==> |r.0| == 0
  {
    var t := TickChains(chains, env, eff);
    var remaining := Survivors(t.chains, t.results);
    assert ValidChains(remaining) by {
      forall j | 0 <= j < |remaining|
        ensures 0 < |remaining[j]| && WellFormedChain(remaining[j])
      {
        assert remaining[j] in t.chains;
      }
    }
    (remaining, |remaining| == 0, t.eff)
  }

  /**
   * The inherited UpdateObject of the collection, which has no next node and never
   * loops: it starts when StartTime is 0, and on reporting done clears StartTime and
   * sets Finished, which never stops later ticks.
   */
  function UpdateSet(s: BehaviorSet, env: Env, eff: Effects): (r: (BehaviorSet, bool, Effects))
    requires ValidChains(s.chains)
    ensures ValidChains(r.0.chains)
    ensures r.1 <==> |r.0.chains| == 0
  {
    var startTime := if s.startTime == 0 then env.timestamp else s.startTime;
    var internal := UpdateInternal(s.chains, env, eff);
    if internal.1 then (BehaviorSet(0, true, internal.0), true, internal.2)
    else (BehaviorSet(startTime, s.finished, internal.0), false, internal.2)
  }

  // ---------------------------------------------------------------------------
  // Properties of the specification.

  /** Ticking a prefix of the list gives a prefix of the outcome: chains are ticked once each, in order. */
  lemma {:induction false} TickChainsPrefix(chains: seq<seq<Node>>, env: Env, eff: Effects, j: nat)
    requires ValidChains(chains) && j <= |chains|
    ensures ValidChains(chains[..j])
    ensures var whole := TickChains(chains, env, eff);
            var prefix := TickChains(chains[..j], env, eff);
            whole.chains[..j] == prefix.chains && whole.results[..j] == prefix.results
    decreases |chains|
  {
    assert ValidChains(chains[..j]);
    if j < |chains| {
      var last := |chains| - 1;
      assert chains[..last][..j] == chains[..j];
      TickChainsPrefix(chains[..last], env, eff, j);
    } else {
      assert chains[..j] == chains;
    }
  }

  /** Chain j's new state and result are those of one UpdateObject on it, after chains 0..j-1. */
  lemma TickChainsEach(chains: seq<seq<Node>>, env: Env, eff: Effects, j: nat)
    requires ValidChains(chains) && j < |chains|
    ensures ValidChains(chains[..j])
    ensures var t := UpdateObject(chains[j], 0, env, TickChains(chains[..j], env, eff).eff);
            TickChains(chains, env, eff).chains[j] == t.nodes && TickChains(chains, env, eff).results[j] == t.done
  {
    TickChainsPrefix(chains, env, eff, j + 1);
    assert chains[..j + 1][..j] == chains[..j];
    assert ValidChains(chains[..j]);
  }

  /** The survivors are exactly the chains whose result was false, in order. */
  function CountFalse(results: seq<bool>): nat
  {
    if |results| == 0 then 0 else CountFalse(results[..|results| - 1]) + (if results[|results| - 1] then 0 else 1)
  }

  lemma {:induction false} SurvivorsAreNotDone<T>(chains: seq<T>, results: seq<bool>)
    requires |results| == |chains|
    ensures |Survivors(chains, results)| == CountFalse(results)
    ensures (forall k :: 0 <= k < |results| ==> !results[k]) ==> Survivors(chains, results) == chains
    ensures (forall k :: 0 <= k < |results| ==> results[k]) ==> Survivors(chains, results) == []
    decreases |chains|
  {
    if |chains| > 0 {
      var last := |chains| - 1;
      SurvivorsAreNotDone(chains[..last], results[..last]);
      if forall k :: 0 <= k < |results| ==> !results[k] {
        assert chains[..last] + [chains[last]] == chains;
      }
    }
  }

  /** An empty set ticks nothing, changes nothing and reports true. */
  lemma EmptySetReportsDone(s: BehaviorSet, env: Env, eff: Effects)
    requires s.chains == []
    ensures UpdateSet(s, env, eff) == (BehaviorSet(0, true, []), true, eff)
  {
  }

  /** Finished never blocks the set: a later tick still runs behaviours added after it reported empty. */
  lemma FinishedSetStillTicks(s: BehaviorSet, env: Env, eff: Effects)
    requires ValidChains(s.chains) && s.finished
    ensures UpdateSet(s, env, eff).0.chains == UpdateInternal(s.chains, env, eff).0
    ensures UpdateSet(s, env, eff).2 == TickChains(s.chains, env, eff).eff
  {
  }

  // ---------------------------------------------------------------------------
  // The collection object.

  class BehaviorCollectionObject {
    var startTime: int
    var finished: bool
    var behaviors: seq<seq<Node>>

    function State(): BehaviorSet
      reads this
    {
      BehaviorSet(startTime, finished, behaviors)
    }

    /** A new collection: not started, not finished, empty. */
    constructor ()
      ensures State() == BehaviorSet(0, false, [])
    {
      startTime := 0;
      finished := false;
      behaviors := [];
    }

    /** ARenderObject.AddBehavior appends a new chain root to the list. */
    method AddBehavior(beh: seq<Node>)
      modifies this
      ensures State() == old(State()).(chains := old(behaviors) + [beh])
    {
      behaviors := behaviors + [beh];
    }

    /** UpdateOjectInternal: the foreach that ticks and collects, then the removal of the collected chains. */
    method UpdateOjectInternal(env: Env, eff: Effects) returns (done: bool, effOut: Effects)
      requires ValidChains(behaviors)
      modifies this
      ensures (behaviors, done, effOut) == UpdateInternal(old(behaviors), env, eff)
      ensures startTime == old(startTime) && finished == old(finished)
    {
      var ticked, toRemove;
      ticked, toRemove, effOut := TickAndCollect(behaviors, env, eff);
      behaviors := ticked;
      RemoveCollected(toRemove, TickChains(old(behaviors), env, eff).results);
      done := |behaviors| == 0;
    }

    /** behaviors2Remove.ForEach(cur => Behaviors.Remove(cur)): each collected chain leaves the list. */
    method RemoveCollected(toRemove: seq<nat>, ghost results: seq<bool>)
      requires |results| == |behaviors| && Collected(toRemove, results, |results|)
      modifies this
      ensures behaviors == Survivors(old(behaviors), results)
      ensures startTime == old(startTime) && finished == old(finished)
    {
      behaviors := RemovePositions(behaviors, toRemove, results);
    }

    /** The inherited UpdateObject: start when due, run the step, and record completion. */
    method UpdateObject(env: Env, eff: Effects) returns (done: bool, effOut: Effects)
      requires ValidChains(behaviors)
      modifies this
      ensures (State(), done, effOut) == UpdateSet(old(State()), env, eff)
    {
      if startTime == 0 {
        startTime := env.timestamp;
      }
      done, effOut := UpdateOjectInternal(env, eff);
      if done {
        startTime := 0;
        finished := true;
      }
    }
  }

  /** toRemove lists, in increasing order, exactly the positions below n whose result was true. */
  predicate Collected(toRemove: seq<nat>, results: seq<bool>, n: nat)
    requires n <= |results|
  {
    && (forall a, b {:trigger PosAt(toRemove, a), PosAt(toRemove, b)} ::
          0 <= a < b < |toRemove| ==> PosAt(toRemove, a) < PosAt(toRemove, b))
    && (forall m :: 0 <= m < |toRemove| ==> toRemove[m] < n && results[toRemove[m]])
    && (forall k :: 0 <= k < n && results[k] ==> k in toRemove)
  }

  /** The a-th collected position (named, so that the ordering above is only used where asked for). */
  function PosAt(toRemove: seq<nat>, a: int): nat
    requires 0 <= a < |toRemove|
  {
    toRemove[a]
  }

  /** The foreach loop: tick each chain once, in order, collecting the positions of those that report done. */
  method TickAndCollect(chains: seq<seq<Node>>, env: Env, eff: Effects)
    returns (ticked: seq<seq<Node>>, toRemove: seq<nat>, effOut: Effects)
    requires ValidChains(chains)
    ensures ticked == TickChains(chains, env, eff).chains && effOut == TickChains(chains, env, eff).eff
    ensures Collected(toRemove, TickChains(chains, env, eff).results, |chains|)
  {
    ticked := [];
    ghost var results: seq<bool> := [];
    toRemove := [];
    effOut := eff;
    var i: nat := 0;
    while i < |chains|
      invariant i <= |chains|
      invariant TickPrefix(chains, i, env, eff) == SetTick(ticked, results, effOut)
      invariant Collected(toRemove, results, i)
    {
      var t := UpdateObject(chains[i], 0, env, effOut);
      assert TickPrefix(chains, i + 1, env, eff) == SetTick(ticked + [t.nodes], results + [t.done], t.eff) by {
        TickPrefixStep(chains, i, env, eff);
      }
      assert Collected(if t.done then toRemove + [i] else toRemove, results + [t.done], i + 1) by {
        CollectedStep(toRemove, results, i, t.done);
      }
      ticked, results, effOut := ticked + [t.nodes], results + [t.done], t.eff;
      toRemove := if t.done then toRemove + [i] else toRemove;
      i := i + 1;
    }
    assert chains[..i] == chains;
  }

  /** The loop's view of the specification: the tick of the first i chains. */
  function TickPrefix(chains: seq<seq<Node>>, i: int, env: Env, eff: Effects): SetTick
    requires ValidChains(chains) && 0 <= i <= |chains|
  {
    assert ValidChains(chains[..i]);
    TickChains(chains[..i], env, eff)
  }

  /** One more chain: the prefix's outcome extended by that chain's tick. */
  lemma TickPrefixStep(chains: seq<seq<Node>>, i: int, env: Env, eff: Effects)
    requires ValidChains(chains) && 0 <= i < |chains|
    ensures var before := TickPrefix(chains, i, env, eff);
            var t := UpdateObject(chains[i], 0, env, before.eff);
            TickPrefix(chains, i + 1, env, eff) == SetTick(before.chains + [t.nodes], before.results + [t.done], t.eff)
  {
    assert ValidChains(chains[..i]) && ValidChains(chains[..i + 1]);
    assert chains[..i + 1][..i] == chains[..i];
  }

  /** Recording position i exactly when its result is true keeps the collected list exact. */
  lemma CollectedStep(toRemove: seq<nat>, results: seq<bool>, i: nat, done: bool)
    requires |results| == i && Collected(toRemove, results, i)
    ensures Collected(if done then toRemove + [i] else toRemove, results + [done], i + 1)
  {
    var r := if done then toRemove + [i] else toRemove;
    forall k | 0 <= k < i + 1 && (results + [done])[k]
      ensures k in r
    {
      if k < i {
        assert results[k];
      }
    }
    forall a, b | 0 <= a < b < |r|
      ensures PosAt(r, a) < PosAt(r, b)
    {
      if b < |toRemove| {
        assert PosAt(r, a) == PosAt(toRemove, a) && PosAt(r, b) == PosAt(toRemove, b);
      }
    }
  }

  /**
   * The removal loop: the collected chains are removed one after the other; the
   * chain collected j-th sits at its original position minus j by then.
   */
  method RemovePositions(list: seq<seq<Node>>, toRemove: seq<nat>, ghost results: seq<bool>)
    returns (remaining: seq<seq<Node>>)
    requires |results| == |list| && Collected(toRemove, results, |results|)
    ensures remaining == Survivors(list, results)
  {
    remaining := list;
    var j := 0;
    PendingStart(list, results);
    while j < |toRemove|
      invariant j <= |toRemove|
      invariant |remaining| == |list| - j
      invariant remaining == Pending(list, results, Boundary(toRemove, j))
    {
      RemoveNext(list, toRemove, results, remaining, j);
      remaining := RemoveAt(remaining, toRemove[j] - j);
      j := j + 1;
    }
    RemoveFinish(list, toRemove, results);
  }

  /** List<T>.Remove of the element at position i. */
  function RemoveAt<T>(s: seq<T>, i: int): (r: seq<T>)
    requires 0 <= i < |s|
    ensures |r| == |s| - 1
  {
    s[..i] + s[i + 1..]
  }

  /** The first position not yet examined after j removals: just past the j-th collected one. */
  function Boundary(toRemove: seq<nat>, j: int): nat
    requires 0 <= j <= |toRemove|
  {
    if j == 0 then 0 else toRemove[j - 1] + 1
  }

  /** What the list holds once the collected chains before position q are gone. */
  ghost function Pending<T>(list: seq<T>, results: seq<bool>, q: nat): seq<T>
    requires |results| == |list|
  {
    if q <= |list| then Survivors(list[..q], results[..q]) + list[q..] else []
  }

  /** Before the first removal the whole list is pending. */
  lemma PendingStart<T>(list: seq<T>, results: seq<bool>)
    requires |results| == |list|
    ensures Pending(list, results, 0) == list
  {
    assert list[..0] == [] && list[0..] == list;
  }

  /** One turn of the removal loop: the j-th collected chain is removed at its shifted position. */
  lemma RemoveNext<T>(list: seq<T>, toRemove: seq<nat>, results: seq<bool>, remaining: seq<T>, j: nat)
    requires |results| == |list| && Collected(toRemove, results, |results|) && j < |toRemove|
    requires |remaining| == |list| - j && remaining == Pending(list, results, Boundary(toRemove, j))
    ensures j <= toRemove[j] < |list| && toRemove[j] - j < |remaining|
    ensures RemoveAt(remaining, toRemove[j] - j) == Pending(list, results, Boundary(toRemove, j + 1))
  {
    var p, q := toRemove[j], Boundary(toRemove, j);
    PendingBounds(list, toRemove, results, remaining, j);
    NoRemovalInGap(toRemove, results, j, q, p);
    RemoveStep(list, results, q, p, j);
    assert Boundary(toRemove, j + 1) == p + 1;
  }

  /** Removing the first done chain after a run of survivors, at its position shifted by the j earlier removals. */
  lemma RemoveStep<T>(list: seq<T>, results: seq<bool>, q: nat, p: nat, j: nat)
    requires |results| == |list| && j <= q <= p < |list| && results[p]
    requires forall k :: q <= k < p ==> !results[k]
    requires |Survivors(list[..q], results[..q])| == q - j
    ensures RemoveAt(Survivors(list[..q], results[..q]) + list[q..], p - j)
            == Survivors(list[..p + 1], results[..p + 1]) + list[p + 1..]
  {
    RemoveShifted(Survivors(list[..q], results[..q]), list, q, p, j);
    RemoveAtSurvivorBoundary(list, results, q, p);
  }

  /** Where the loop stands before its j-th removal: the pending list is the survivors so far, then the rest. */
  lemma PendingBounds<T>(list: seq<T>, toRemove: seq<nat>, results: seq<bool>, remaining: seq<T>, j: nat)
    requires |results| == |list| && Collected(toRemove, results, |results|) && j < |toRemove|
    requires |remaining| == |list| - j && remaining == Pending(list, results, Boundary(toRemove, j))
    ensures var q := Boundary(toRemove, j);
            && j <= q <= toRemove[j] < |list|
            && remaining == Survivors(list[..q], results[..q]) + list[q..]
            && |Survivors(list[..q], results[..q])| == q - j
  {
    if j > 0 {
      assert PosAt(toRemove, j - 1) < PosAt(toRemove, j);
    }
  }

  /** After the last removal only surviving chains are left. */
  lemma RemoveFinish<T>(list: seq<T>, toRemove: seq<nat>, results: seq<bool>)
    requires |results| == |list| && Collected(toRemove, results, |results|)
    ensures Pending(list, results, Boundary(toRemove, |toRemove|)) == Survivors(list, results)
  {
    var q := Boundary(toRemove, |toRemove|);
    NoRemovalInGap(toRemove, results, |toRemove|, q, |list|);
    SegmentWithoutRemovals(list, results, q, |list|);
    assert list[..|list|] == list && results[..|results|] == results;
  }

  /** Between two consecutive collected positions every result is false. */
  lemma NoRemovalInGap(toRemove: seq<nat>, results: seq<bool>, j: nat, q: nat, p: nat)
    requires Collected(toRemove, results, |results|) && j <= |toRemove| && q <= p <= |results|
    requires j == 0 ==> q == 0
    requires j > 0 ==> q == toRemove[j - 1] + 1
    requires j < |toRemove| ==> p == toRemove[j]
    requires j == |toRemove| ==> p == |results|
    ensures forall k :: q <= k < p ==> !results[k]
  {
    forall m | 0 <= m < |toRemove|
      ensures toRemove[m] < q || p <= toRemove[m]
    {
      if m < j - 1 {
        assert PosAt(toRemove, m) < PosAt(toRemove, j - 1);
      } else if j < m {
        assert PosAt(toRemove, j) < PosAt(toRemove, m);
      }
    }
  }

  /** A run of chains that all survive is appended unchanged. */
  lemma {:induction false} SegmentWithoutRemovals<T>(chains: seq<T>, results: seq<bool>, q: nat, p: nat)
    requires |results| == |chains| && q <= p <= |chains|
    requires forall k :: q <= k < p ==> !results[k]
    ensures Survivors(chains[..p], results[..p]) == Survivors(chains[..q], results[..q]) + chains[q..p]
    decreases p - q
  {
    if q < p {
      SegmentWithoutRemovals(chains, results, q, p - 1);
      assert chains[..p][..p - 1] == chains[..p - 1];
      assert results[..p][..p - 1] == results[..p - 1];
      assert chains[q..p] == chains[q..p - 1] + [chains[p - 1]];
    }
  }

  /** In survivors-then-rest, original position p sits at p - j once j earlier chains are gone. */
  lemma RemoveShifted<T>(kept: seq<T>, chains: seq<T>, q: nat, p: nat, j: nat)
    requires q <= p < |chains| && |kept| == q - j
    ensures var list := kept + chains[q..];
            p - j < |list| && list[..p - j] + list[p - j + 1..] == kept + chains[q..p] + chains[p + 1..]
  {
    var list := kept + chains[q..];
    assert list[..p - j] == kept + chains[q..p];
    assert list[p - j + 1..] == chains[p + 1..];
  }

  /** Removing the element a done chain occupies once the earlier removals are made. */
  lemma RemoveAtSurvivorBoundary<T>(chains: seq<T>, results: seq<bool>, q: nat, p: nat)
    requires |results| == |chains| && q <= p < |chains| && results[p]
    requires forall k :: q <= k < p ==> !results[k]
    ensures Survivors(chains[..p + 1], results[..p + 1]) == Survivors(chains[..q], results[..q]) + chains[q..p]
  {
    SegmentWithoutRemovals(chains, results, q, p);
    assert chains[..p + 1][..p] == chains[..p];
    assert results[..p + 1][..p] == results[..p];
  }
}
