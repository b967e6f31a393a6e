/** What the tick of each behaviour kind does, and how chains of them run over several ticks. */
module BehaviorProperties {
  import opened PropertyAccess
  import opened Behavior

  /** The StartTime a node runs with on this tick: OnStart records the timestamp only when due. */
  function StartTimeOnTick(n: Node, timestamp: int): int
  {
    if n.startTime == 0 && n.autoStart then timestamp else n.startTime
  }

  /** A tick that does not hand over to the successor steps node i itself. */
  predicate StepsItself(nodes: seq<Node>, i: nat)
    requires i < |nodes|
  {
    !(nodes[i].finished && i + 1 < |nodes|)
  }

  // ---------------------------------------------------------------------------
  // ABehavior.UpdateObject

  /** A finished node with a successor returns exactly the successor's result and is itself untouched or reset. */
  lemma DelegatesPastFinished(nodes: seq<Node>, i: nat, env: Env, eff: Effects)
    requires i < |nodes| && WellFormedChain(nodes)
    requires nodes[i].finished && i + 1 < |nodes|
    ensures UpdateObject(nodes, i, env, eff) == UpdateObject(nodes, i + 1, env, eff)
    ensures UpdateObject(nodes, i, env, eff).nodes[i] in {nodes[i], ResetNode(nodes[i])}
  {
    var r := UpdateObject(nodes, i + 1, env, eff);
    assert r.nodes[i] == nodes[i] || r.nodes[i] == ResetNode(nodes[i]);
  }

  /** OnStart runs exactly when StartTime is 0 and AutoStart is set. */
  lemma StartsOnlyWhenDue(nodes: seq<Node>, i: nat, env: Env, eff: Effects)
    requires i < |nodes| && WellFormedChain(nodes)
    ensures StepAt(nodes, i, env, eff).node.startTime == StartTimeOnTick(nodes[i], env.timestamp)
  {
  }

  /**
   * The bookkeeping after the step: an unfinished step only updates the node; a
   * completed one clears StartTime and sets Finished, unless the node is a looping
   * tail, whose completion resets the whole chain from its root. The result is
   * done, at the tail, and not looping.
   */
  lemma CompletionBookkeeping(nodes: seq<Node>, i: nat, env: Env, eff: Effects)
    requires i < |nodes| && WellFormedChain(nodes) && StepsItself(nodes, i)
    ensures var s := StepAt(nodes, i, env, eff);
            var r := UpdateObject(nodes, i, env, eff);
            && r.eff == s.eff
            && r.done == (s.done && i + 1 == |nodes| && !nodes[i].loop)
            && (!s.done ==> r.nodes == nodes[i := s.node])
            && (s.done && !(nodes[i].loop && i + 1 == |nodes|) ==>
                  r.nodes == nodes[i := s.node.(startTime := 0, finished := true)])
            && (s.done && nodes[i].loop && i + 1 == |nodes| ==>
                  forall k :: 0 <= k < |nodes| ==> r.nodes[k] == ResetNode(if k == i then s.node else nodes[k]))
  {
  }

  /** A looping tail never reports done; a chain reports done only on the tick its last node completes. */
  lemma DoneOnlyWhenNonLoopingTailCompletes(nodes: seq<Node>, i: nat, env: Env, eff: Effects)
    requires i < |nodes| && WellFormedChain(nodes)
    ensures nodes[|nodes| - 1].loop ==> !UpdateObject(nodes, i, env, eff).done
    ensures UpdateObject(nodes, i, env, eff).done ==>
              StepAt(nodes, |nodes| - 1, env, eff).done && UpdateObject(nodes, i, env, eff).nodes[|nodes| - 1].finished
  {
  }

  // ---------------------------------------------------------------------------
  // WaitBehavior

  /** Wait reports done iff its duration is strictly less than the elapsed time, and writes nothing. */
  lemma WaitStep(nodes: seq<Node>, i: nat, env: Env, eff: Effects)
    requires i < |nodes| && WellFormedChain(nodes) && nodes[i].kind.Wait?
    ensures StepAt(nodes, i, env, eff).done
        <==> nodes[i].kind.durationMs < env.timestamp - StartTimeOnTick(nodes[i], env.timestamp)
    ensures StepAt(nodes, i, env, eff).eff == eff
  {
  }

  /** On its start tick the elapsed time is 0, so a non-negative Wait does not complete. */
  lemma WaitNotDoneOnStartTick(nodes: seq<Node>, i: nat, env: Env, eff: Effects)
    requires i < |nodes| && WellFormedChain(nodes) && nodes[i].kind.Wait?
    requires nodes[i].startTime == 0 && nodes[i].autoStart && nodes[i].kind.durationMs >= 0
    ensures !StepAt(nodes, i, env, eff).done
  {
  }

  /** Wait(500) started at 1000 is not done at 1500 and is done at every later millisecond. */
  lemma WaitFiveHundredStartedAtThousand(env: Env, eff: Effects)
    ensures var chain := [Node(Wait(500), 1000, false, false, true)];
            UpdateObject(chain, 0, env, eff).done <==> env.timestamp >= 1501
  {
  }

  // ---------------------------------------------------------------------------
  // CallbackBehaviour

  /** A callback tick invokes the callback once and reports done. */
  lemma CallbackStep(nodes: seq<Node>, i: nat, env: Env, eff: Effects)
    requires i < |nodes| && WellFormedChain(nodes) && nodes[i].kind.Callback?
    ensures StepAt(nodes, i, env, eff).done
    ensures StepAt(nodes, i, env, eff).eff == eff.(invoked := eff.invoked + [nodes[i].kind.callback])
  {
  }

  /** As a non-tail node it runs on one tick only: afterwards its chain delegates past it. */
  lemma CallbackRunsOnceBeforeSuccessor(nodes: seq<Node>, env: Env, eff: Effects, env': Env, eff': Effects)
    requires 1 < |nodes| && WellFormedChain(nodes) && nodes[0].kind.Callback? && !nodes[0].finished
    ensures var r := UpdateObject(nodes, 0, env, eff);
            && r.eff.invoked == eff.invoked + [nodes[0].kind.callback]
            && !r.done && r.nodes[0].finished
            && UpdateObject(r.nodes, 0, env', eff') == UpdateObject(r.nodes, 1, env', eff')
  {
    CallbackStep(nodes, 0, env, eff);
  }

  /** A lone non-looping callback chain reports done after its single tick, so the set prunes it. */
  lemma LoneCallbackIsDone(c: nat, env: Env, eff: Effects)
    ensures UpdateObject([NewNode(Callback(c))], 0, env, eff).done
  {
  }

  // ---------------------------------------------------------------------------
  // Repeated ticks of one chain.

  /** n successive ticks of a chain, each with the same environment. */
  function Ticks(nodes: seq<Node>, env: Env, eff: Effects, n: nat): (r: Tick)
    requires 0 < |nodes| && WellFormedChain(nodes)
    ensures |r.nodes| == |nodes| && WellFormedChain(r.nodes)
  {
    if n == 0 then Tick(nodes, false, eff)
    else
      var previous := Ticks(nodes, env, eff, n - 1);
      UpdateObject(previous.nodes, 0, env, previous.eff)
  }

  /** A lone looping chain of a fresh behaviour. */
  function LoopingLone(k: Kind): seq<Node>
  {
    Loop([NewNode(k)], 0)
  }

  /** A looping lone callback runs on every tick: each completion resets the chain to its initial state. */
  lemma {:induction false} LoopingCallbackRunsEveryTick(c: nat, env: Env, eff: Effects, n: nat)
    ensures var r := Ticks(LoopingLone(Callback(c)), env, eff, n);
            && r.nodes == LoopingLone(Callback(c))
            && r.eff.invoked == eff.invoked + seq(n, _ => c)
            && !r.done
  {
    if n > 0 {
      LoopingCallbackRunsEveryTick(c, env, eff, n - 1);
      var previous := Ticks(LoopingLone(Callback(c)), env, eff, n - 1);
      CallbackStep(previous.nodes, 0, env, previous.eff);
      CompletionBookkeeping(previous.nodes, 0, env, previous.eff);
      assert eff.invoked + seq(n, _ => c) == previous.eff.invoked + [c];
    }
  }

  // ---------------------------------------------------------------------------
  // MemberChangeRelative

  /** A relative change sets the property to Sum(current, delta), touches nothing else, and is done. */
  lemma ChangeRelativeStep(nodes: seq<Node>, i: nat, env: Env, eff: Effects)
    requires i < |nodes| && WellFormedChain(nodes) && nodes[i].kind.ChangeRelative?
    ensures var k := nodes[i].kind;
            var s := StepAt(nodes, i, env, eff);
            && HasKind(k.access, k.delta)
            && s.done
            && GetValue(k.access, s.eff.obj) == Sum(GetValue(k.access, eff.obj), k.delta)
            && (forall b :: b != k.access ==> GetValue(b, s.eff.obj) == GetValue(b, eff.obj))
            && s.eff.scheduled == eff.scheduled && s.eff.invoked == eff.invoked
  {
    assert WellFormedNode(nodes[i]);
    var k := nodes[i].kind;
    SetThenGet(k.access, eff.obj, Sum(GetValue(k.access, eff.obj), k.delta));
  }

  /** As a looping lone chain, n ticks add n times delta in total. */
  lemma {:induction false} LoopingChangeRelativeAccumulates(a: Accessor, delta: Value, env: Env, eff: Effects, n: nat)
    requires HasKind(a, delta)
    ensures var r := Ticks(LoopingLone(ChangeRelative(a, delta)), env, eff, n);
            && r.nodes == LoopingLone(ChangeRelative(a, delta))
            && GetValue(a, r.eff.obj) == SumRepeated(GetValue(a, eff.obj), delta, n)
            && GetValue(a, r.eff.obj) == Sum(GetValue(a, eff.obj), Scale(delta, n as real))
  {
    var chain := LoopingLone(ChangeRelative(a, delta));
    assert WellFormedChain(chain) by { assert WellFormedNode(chain[0]); }
    if n > 0 {
      LoopingChangeRelativeAccumulates(a, delta, env, eff, n - 1);
      var previous := Ticks(chain, env, eff, n - 1);
      ChangeRelativeStep(previous.nodes, 0, env, previous.eff);
    }
    SumRepeatedIsScaled(GetValue(a, eff.obj), delta, n);
  }

  // ---------------------------------------------------------------------------
  // MemberAnimatorAbsolute

  /** The value the animator writes at the given eased progress. */
  function AnimatedValue(k: Kind, start: Value, eased: real): Value
    requires k.AnimateAbsolute? && SameKind(start, k.target)
  {
    Interpolate(start, k.target, eased)
  }

  /**
   * OnStart snapshots the property; each tick writes start + (target - start) * eased(p),
   * p = min(elapsed / duration, 1), and reports done when eased(p) >= 1.
   */
  lemma AnimateStep(nodes: seq<Node>, i: nat, env: Env, eff: Effects)
    requires i < |nodes| && WellFormedChain(nodes) && nodes[i].kind.AnimateAbsolute?
    ensures var k := nodes[i].kind;
            var s := StepAt(nodes, i, env, eff);
            var start := if nodes[i].startTime == 0 && nodes[i].autoStart then GetValue(k.access, eff.obj) else k.startValue;
            var p := RelativeProgress(s.node, env.timestamp, k.durationMs);
            && SameKind(start, k.target)
            && s.node.kind == k.(startValue := start)
            && s.eff == eff.(obj := SetValue(k.access, eff.obj, AnimatedValue(k, start, env.ease(p))))
            && (s.done <==> env.ease(p) >= 1.0)
  {
    assert WellFormedNode(nodes[i]);
  }

  /** Only the animated property is written. */
  lemma AnimateWritesOnlyItsProperty(nodes: seq<Node>, i: nat, env: Env, eff: Effects)
    requires i < |nodes| && WellFormedChain(nodes) && nodes[i].kind.AnimateAbsolute?
    ensures forall b :: b != nodes[i].kind.access ==>
              GetValue(b, StepAt(nodes, i, env, eff).eff.obj) == GetValue(b, eff.obj)
  {
    AnimateStep(nodes, i, env, eff);
  }

  /** On the start tick p = 0, so with eased(0) = 0 the property is rewritten with its own value. */
  lemma AnimateStartTickKeepsValue(nodes: seq<Node>, i: nat, env: Env, eff: Effects)
    requires i < |nodes| && WellFormedChain(nodes) && nodes[i].kind.AnimateAbsolute?
    requires nodes[i].startTime == 0 && nodes[i].autoStart
    requires env.ease(0.0) == 0.0
    ensures StepAt(nodes, i, env, eff).eff == eff
    ensures !StepAt(nodes, i, env, eff).done
  {
    AnimateStep(nodes, i, env, eff);
    var k := nodes[i].kind;
    InterpolationEndpoints(GetValue(k.access, eff.obj), k.target);
    SetOwnValue(k.access, eff.obj);
  }

  /** Once the elapsed time reaches the duration p is capped at 1: with eased(1) = 1 the tick is done at the target. */
  lemma AnimateReachesTarget(nodes: seq<Node>, i: nat, env: Env, eff: Effects)
    requires i < |nodes| && WellFormedChain(nodes) && nodes[i].kind.AnimateAbsolute?
    requires env.timestamp - StartTimeOnTick(nodes[i], env.timestamp) >= nodes[i].kind.durationMs
    requires env.ease(1.0) == 1.0
    ensures StepAt(nodes, i, env, eff).done
    ensures GetValue(nodes[i].kind.access, StepAt(nodes, i, env, eff).eff.obj) == nodes[i].kind.target
  {
    AnimateStep(nodes, i, env, eff);
    var k := nodes[i].kind;
    var start := StepAt(nodes, i, env, eff).node.kind.startValue;
    InterpolationEndpoints(start, k.target);
    SetThenGet(k.access, eff.obj, k.target);
  }

  /** With an easing bounded by 1 (as the cosine converter is), the animator is done only at the target. */
  lemma AnimateDoneOnlyAtTarget(nodes: seq<Node>, i: nat, env: Env, eff: Effects)
    requires i < |nodes| && WellFormedChain(nodes) && nodes[i].kind.AnimateAbsolute?
    requires forall x: real :: env.ease(x) <= 1.0
    requires StepAt(nodes, i, env, eff).done
    ensures GetValue(nodes[i].kind.access, StepAt(nodes, i, env, eff).eff.obj) == nodes[i].kind.target
  {
    AnimateStep(nodes, i, env, eff);
    var k := nodes[i].kind;
    var start := StepAt(nodes, i, env, eff).node.kind.startValue;
    InterpolationEndpoints(start, k.target);
    SetThenGet(k.access, eff.obj, k.target);
  }

  // ---------------------------------------------------------------------------
  // RemoveFromParent

  /** The tick schedules "remove ro from its parent" on Root.AfterUpdate, after earlier actions, and is done. */
  lemma RemoveFromParentStep(nodes: seq<Node>, i: nat, env: Env, eff: Effects)
    requires i < |nodes| && WellFormedChain(nodes) && nodes[i].kind.RemoveFromParent?
    ensures StepAt(nodes, i, env, eff).done
    ensures StepAt(nodes, i, env, eff).eff == eff.(scheduled := eff.scheduled + [env.self])
  {
  }

  // ---------------------------------------------------------------------------
  // OnEvent

  /** An OnEvent step never finishes, so a chain ending in one never reports done. */
  lemma OnEventNeverDone(nodes: seq<Node>, i: nat, env: Env, eff: Effects)
    requires i < |nodes| && WellFormedChain(nodes)
    ensures nodes[i].kind.OnEvent? ==> !StepAt(nodes, i, env, eff).done
    ensures nodes[|nodes| - 1].kind.OnEvent? ==> !UpdateObject(nodes, i, env, eff).done
  {
  }

  /** Without the key pressed, or without a wrapped behaviour, the step has no effect. */
  lemma OnEventIdle(nodes: seq<Node>, i: nat, env: Env, eff: Effects)
    requires i < |nodes| && WellFormedChain(nodes) && nodes[i].kind.OnEvent?
    requires nodes[i].kind.expected !in env.pressed || nodes[i].kind.actual == []
    ensures StepAt(nodes, i, env, eff).eff == eff
    ensures StepAt(nodes, i, env, eff).node.kind == nodes[i].kind
  {
  }

  /** With the key pressed, the wrapped behaviour is ticked once, and its result is ignored. */
  lemma OnEventTicksWrapped(nodes: seq<Node>, i: nat, env: Env, eff: Effects)
    requires i < |nodes| && WellFormedChain(nodes) && nodes[i].kind.OnEvent?
    requires nodes[i].kind.expected in env.pressed && nodes[i].kind.actual != []
    ensures WellFormedChain(nodes[i].kind.actual)
    ensures var inner := UpdateObject(nodes[i].kind.actual, 0, env, eff);
            && StepAt(nodes, i, env, eff).eff == inner.eff
            && StepAt(nodes, i, env, eff).node.kind == nodes[i].kind.(actual := inner.nodes)
            && !StepAt(nodes, i, env, eff).done
  {
    assert WellFormedNode(nodes[i]);
  }
}
