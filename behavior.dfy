/**
 * ABehavior and its concrete kinds (Wait, Callback, MemberChangeRelative,
 * MemberAnimatorAbsolute, RemoveFromParent, OnEvent).
 *
 * A behaviour chain is a sequence of nodes: index 0 is the root (no back-link),
 * the next link of node i is node i + 1 and its back-link is node i - 1. The
 * behaviour wrapped by an OnEvent node is itself a chain ([] when there is none).
 * A tick threads the render object's properties and the scene's side effects
 * (the AfterUpdate schedule and the callbacks invoked) through an Effects value.
 */
module Behavior {
  import opened PropertyAccess
  import opened Events

  /** Identity of a render object. */
  type Id = nat

  datatype Kind =
    | Wait(durationMs: int)
    | Callback(callback: nat)
    | ChangeRelative(access: Accessor, delta: Value)
    | AnimateAbsolute(access: Accessor, target: Value, durationMs: int, startValue: Value)
    | RemoveFromParent
    | OnEvent(expected: EventType, actual: seq<Node>)

  /** The ABehavior state: StartTime (0 = not started), Finished, the loop flag and AutoStart. */
  datatype Node = Node(kind: Kind, startTime: int, finished: bool, loop: bool, autoStart: bool)

  /** A freshly constructed behaviour: not started, not finished, not looping, AutoStart set. */
  function NewNode(kind: Kind): Node
  {
    Node(kind, 0, false, false, true)
  }

  /**
   * The typing the C# generics guarantee: a property change carries values of its
   * accessor's kind. Animations have a positive duration.
   */
  predicate WellFormedNode(n: Node)
    decreases n
  {
    match n.kind
    case ChangeRelative(a, delta) => HasKind(a, delta)
    case AnimateAbsolute(a, target, d, start) => HasKind(a, target) && HasKind(a, start) && d > 0
    case OnEvent(_, actual) => WellFormedChain(actual)
    case _ => true
  }

  predicate WellFormedChain(nodes: seq<Node>)
    decreases nodes
  {
    forall k :: 0 <= k < |nodes| ==> WellFormedNode(nodes[k])
  }

  /** Number of nodes, counting those inside OnEvent wrappers; the measure of a tick's recursion. */
  function Size(nodes: seq<Node>): nat
    decreases nodes
  {
    if |nodes| == 0 then 0 else NodeSize(nodes[0]) + Size(nodes[1..])
  }

  function NodeSize(n: Node): nat
    decreases n
  {
    1 + match n.kind
        case OnEvent(_, actual) => Size(actual)
        case _ => 0
  }

  lemma {:induction false} NodeSizeBound(nodes: seq<Node>, i: nat)
    requires i < |nodes|
    ensures NodeSize(nodes[i]) <= Size(nodes)
  {
    if i > 0 {
      NodeSizeBound(nodes[1..], i - 1);
      assert nodes[1..][i - 1] == nodes[i];
    }
  }

  /** The environment of one tick: the timestamp, ro's identity, the keys Root.IsPressed reports, the easing. */
  datatype Env = Env(timestamp: int, self: Id, pressed: set<EventType>, ease: real -> real)

  /** What a tick changes outside the chain: ro's properties, Root.AfterUpdate, callbacks invoked. */
  datatype Effects = Effects(obj: Properties, scheduled: seq<Id>, invoked: seq<nat>)

  // ---------------------------------------------------------------------------
  // Timing queries.

  function DurationMs(n: Node, timestamp: int): int
  {
    timestamp - n.startTime
  }

  /** Elapsed / maximum duration, capped at 1 and not clamped below. */
  function RelativeProgress(n: Node, timestamp: int, maxDurationMs: int): (r: real)
    requires maxDurationMs > 0
    ensures r <= 1.0
    ensures r == 1.0 <==> DurationMs(n, timestamp) >= maxDurationMs
    ensures r < 1.0 ==> r * maxDurationMs as real == DurationMs(n, timestamp) as real
    ensures r < 0.0 <==> DurationMs(n, timestamp) < 0
  {
    var ret := DurationMs(n, timestamp) as real / maxDurationMs as real;
    if ret > 1.0 then 1.0 else ret
  }

  // ---------------------------------------------------------------------------
  // Link operations.

  /** After(b): node i's next becomes b's root (and b's back-link node i); After(null) is b == []. */
  function After(nodes: seq<Node>, i: nat, b: seq<Node>): (r: seq<Node>)
    requires i < |nodes|
    ensures |r| == i + 1 + |b|
    ensures forall k :: 0 <= k <= i ==> r[k] == nodes[k]
    ensures forall k :: 0 <= k < |b| ==> r[i + 1 + k] == b[k]
  {
    nodes[..i + 1] + b
  }

  /** Loop(): sets the loop flag of node i only. */
  function Loop(nodes: seq<Node>, i: nat): (r: seq<Node>)
    requires i < |nodes|
    ensures |r| == |nodes| && r[i].loop
    ensures r[i] == nodes[i].(loop := true)
    ensures forall k :: 0 <= k < |nodes| && k != i ==> r[k] == nodes[k]
  {
    nodes[i := nodes[i].(loop := true)]
  }

  function ResetNode(n: Node): (r: Node)
    ensures WellFormedNode(r) == WellFormedNode(n)
  {
    n.(startTime := 0, finished := false)
  }

  /** Reset(): clears StartTime and Finished on node i and every node after it; predecessors are untouched. */
  function Reset(nodes: seq<Node>, i: nat): (r: seq<Node>)
    requires i < |nodes|
    ensures |r| == |nodes|
    ensures forall k :: 0 <= k < i ==> r[k] == nodes[k]
    ensures forall k :: i <= k < |nodes| ==> r[k] == ResetNode(nodes[k])
    ensures WellFormedChain(nodes) ==> WellFormedChain(r)
    decreases |nodes| - i
  {
    var reset := nodes[i := ResetNode(nodes[i])];
    if i + 1 < |nodes| then Reset(reset, i + 1) else reset
  }

  // ---------------------------------------------------------------------------
  // The tick.

  /** OnStart: records StartTime; an absolute animator also snapshots the property's current value. */
  function OnStart(n: Node, timestamp: int, obj: Properties): (r: Node)
    ensures r.startTime == timestamp
    ensures r.finished == n.finished && r.loop == n.loop && r.autoStart == n.autoStart
    ensures n.kind.AnimateAbsolute? ==> r.kind == n.kind.(startValue := GetValue(n.kind.access, obj))
    ensures !n.kind.AnimateAbsolute? ==> r.kind == n.kind
  {
    var started := n.(startTime := timestamp);
    match n.kind
    case AnimateAbsolute(a, target, d, _) => started.(kind := AnimateAbsolute(a, target, d, GetValue(a, obj)))
    case _ => started
  }

  /** The node as UpdateOjectInternal sees it: started first when StartTime is 0 and AutoStart is set. */
  function Started(n: Node, timestamp: int, obj: Properties): (r: Node)
    ensures WellFormedNode(n) ==> WellFormedNode(r)
    ensures r.kind.OnEvent? <==> n.kind.OnEvent?
    ensures r.finished == n.finished && r.loop == n.loop && r.autoStart == n.autoStart
  {
    if n.startTime == 0 && n.autoStart then OnStart(n, timestamp, obj) else n
  }

  /** The outcome of one UpdateOjectInternal call: the node's new state, its result and the effects. */
  datatype Step = Step(node: Node, done: bool, eff: Effects)

  /** The outcome of one UpdateObject call: the chain's new state, the result and the effects. */
  datatype Tick = Tick(nodes: seq<Node>, done: bool, eff: Effects)

  /** UpdateOjectInternal of every kind but OnEvent. */
  function StepLeaf(n: Node, env: Env, eff: Effects): Step
    requires WellFormedNode(n) && !n.kind.OnEvent?
  {
    match n.kind
    case Wait(d) =>
      Step(n, d < DurationMs(n, env.timestamp), eff)
    case Callback(c) =>
      Step(n, true, eff.(invoked := eff.invoked + [c]))
    case ChangeRelative(a, delta) =>
      var current := GetValue(a, eff.obj);
      Step(n, true, eff.(obj := SetValue(a, eff.obj, Sum(current, delta))))
    case AnimateAbsolute(a, target, d, start) =>
      var progress := env.ease(RelativeProgress(n, env.timestamp, d));
      var value := Sum(start, Scale(Difference(target, start), progress));
      Step(n, progress >= 1.0, eff.(obj := SetValue(a, eff.obj, value)))
    case RemoveFromParent =>
      Step(n, true, eff.(scheduled := eff.scheduled + [env.self]))
  }

  /** Node i's OnStart (when due) followed by its UpdateOjectInternal. */
  function StepAt(nodes: seq<Node>, i: nat, env: Env, eff: Effects): (s: Step)
    requires i < |nodes| && WellFormedChain(nodes)
    ensures WellFormedNode(s.node)
    ensures s.node.loop == nodes[i].loop && s.node.autoStart == nodes[i].autoStart
    ensures s.node.finished == nodes[i].finished
    decreases Size(nodes), |nodes| - i, 0
  {
    assert WellFormedNode(nodes[i]);
    var n := Started(nodes[i], env.timestamp, eff.obj);
    match nodes[i].kind
    case OnEvent(expected, actual) =>
      if expected in env.pressed && |actual| > 0 then
        NodeSizeBound(nodes, i);
        var inner := UpdateObject(actual, 0, env, eff);
        Step(n.(kind := OnEvent(expected, inner.nodes)), false, inner.eff)
      else
        Step(n, false, eff)
    case _ =>
      StepLeaf(n, env, eff)
  }

  /** The bookkeeping after UpdateOjectInternal: completion, the loop reset, and the result. */
  function Complete(nodes: seq<Node>, i: nat, s: Step): (r: Tick)
    requires i < |nodes| && WellFormedChain(nodes) && WellFormedNode(s.node)
    requires s.node.loop == nodes[i].loop && s.node.autoStart == nodes[i].autoStart
    ensures |r.nodes| == |nodes| && WellFormedChain(r.nodes)
    ensures forall k :: 0 <= k < |nodes| ==> r.nodes[k].loop == nodes[k].loop && r.nodes[k].autoStart == nodes[k].autoStart
  {
    if s.done then
      var completed := nodes[i := s.node.(startTime := 0, finished := true)];
      // GetRootBehavior() is node 0: the chain's first node is the one without a back-link.
      var after := if s.node.loop && i + 1 == |nodes| then Reset(completed, 0) else completed;
      Tick(after, i + 1 == |nodes| && !s.node.loop, s.eff)
    else
      Tick(nodes[i := s.node], false, s.eff)
  }

  /**
   * UpdateObject on node i: a finished node with a successor hands the tick on;
   * otherwise the node starts when due, steps, and completes. The chain reports
   * done only when its last, non-looping node completes. Nodes before i are either
   * untouched or, when the looping tail completed, reset.
   */
  function UpdateObject(nodes: seq<Node>, i: nat, env: Env, eff: Effects): (r: Tick)
    requires i < |nodes| && WellFormedChain(nodes)
    ensures |r.nodes| == |nodes| && WellFormedChain(r.nodes)
    ensures forall k :: 0 <= k < |nodes| ==> r.nodes[k].loop == nodes[k].loop && r.nodes[k].autoStart == nodes[k].autoStart
    ensures r.done ==> !nodes[|nodes| - 1].loop && StepAt(nodes, |nodes| - 1, env, eff).done
    ensures r.done ==> r.nodes[|nodes| - 1].finished
    ensures (forall k :: 0 <= k < i ==> r.nodes[k] == nodes[k])
         || (forall k :: 0 <= k < i ==> r.nodes[k] == ResetNode(nodes[k]))
    decreases Size(nodes), |nodes| - i, 1
  {
    if nodes[i].finished && i + 1 < |nodes| then
      UpdateObject(nodes, i + 1, env, eff)
    else
      Complete(nodes, i, StepAt(nodes, i, env, eff))
  }
}
