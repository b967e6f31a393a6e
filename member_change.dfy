/**
 * The fluent builders of MemberChange and EventHandling, and AddBehavior/Loop of
 * IObjectWithBehavior. A fluent call is made either on the render object itself,
 * whose behaviour set is a list of chains, or on a behaviour reached from that set
 * by a path: the chain's index, then node indices, one more for each OnEvent
 * whose wrapped chain is entered.
 */
module MemberChange {
  import opened Wrappers
  import opened PointfExtensions
  import opened PropertyAccess
  import opened Events
  import opened Behavior
  import opened BehaviorCollection

  /** The receiver of a fluent call. */
  datatype Receiver = OnObject | OnBehavior(chain: nat, path: seq<nat>)

  predicate ValidPath(nodes: seq<Node>, path: seq<nat>)
    decreases |path|
  {
    && 0 < |path| && path[0] < |nodes|
    && (1 < |path| ==> nodes[path[0]].kind.OnEvent? && ValidPath(nodes[path[0]].kind.actual, path[1..]))
  }

  function NodeAt(nodes: seq<Node>, path: seq<nat>): Node
    requires ValidPath(nodes, path)
    decreases |path|
  {
    if |path| == 1 then nodes[path[0]] else NodeAt(nodes[path[0]].kind.actual, path[1..])
  }

  predicate ValidReceiver(chains: seq<seq<Node>>, rcv: Receiver)
  {
    rcv.OnBehavior? ==> rcv.chain < |chains| && ValidPath(chains[rcv.chain], rcv.path)
  }

  function BehaviorAt(chains: seq<seq<Node>>, rcv: Receiver): Node
    requires rcv.OnBehavior? && ValidReceiver(chains, rcv)
  {
    NodeAt(chains[rcv.chain], rcv.path)
  }

  /**
   * ABehavior.AddBehavior on the node at path: After(beh), so beh becomes its next
   * node; on an OnEvent node the override replaces the wrapped behaviour instead and
   * leaves the next link alone. The result addresses the attached behaviour.
   */
  function AttachAt(nodes: seq<Node>, path: seq<nat>, beh: Node): (r: (seq<Node>, seq<nat>))
    requires ValidPath(nodes, path)
    ensures ValidPath(r.0, r.1) && NodeAt(r.0, r.1) == beh
    ensures path[0] < |r.0| && forall k :: 0 <= k < path[0] ==> r.0[k] == nodes[k]
    ensures |path| == 1 && !nodes[path[0]].kind.OnEvent? ==>
              r.0 == After(nodes, path[0], [beh]) && r.1 == [path[0] + 1]
    ensures |path| == 1 && nodes[path[0]].kind.OnEvent? ==>
              |r.0| == |nodes| && r.1 == path + [0] &&
              r.0[path[0]] == nodes[path[0]].(kind := nodes[path[0]].kind.(actual := [beh])) &&
              forall k :: 0 <= k < |nodes| && k != path[0] ==> r.0[k] == nodes[k]
    ensures WellFormedChain(nodes) && WellFormedNode(beh) ==> WellFormedChain(r.0)
    ensures 0 < |r.0|
    decreases |path|
  {
    var i := path[0];
    if |path| == 1 then
      if nodes[i].kind.OnEvent? then
        (nodes[i := nodes[i].(kind := nodes[i].kind.(actual := [beh]))], path + [0])
      else
        (After(nodes, i, [beh]), [i + 1])
    else
      var inner := AttachAt(nodes[i].kind.actual, path[1..], beh);
      var wrapper := nodes[i].(kind := nodes[i].kind.(actual := inner.0));
      assert WellFormedChain(nodes) && WellFormedNode(beh) ==> WellFormedNode(nodes[i]) && WellFormedNode(wrapper);
      (nodes[i := wrapper], [i] + inner.1)
  }

  /**
   * AddBehavior on the receiver: on the render object the behaviour becomes a new
   * chain root in its set; on a behaviour it is attached as AttachAt says. Either way
   * the attached behaviour is returned.
   */
  function AddBehavior(chains: seq<seq<Node>>, rcv: Receiver, beh: Node): (r: (seq<seq<Node>>, Receiver))
    requires ValidReceiver(chains, rcv)
    ensures ValidReceiver(r.0, r.1) && r.1.OnBehavior? && BehaviorAt(r.0, r.1) == beh
    ensures rcv.OnObject? ==> r.0 == chains + [[beh]] && r.1 == OnBehavior(|chains|, [0])
    ensures rcv.OnBehavior? ==> |r.0| == |chains| && forall j :: 0 <= j < |chains| && j != rcv.chain ==> r.0[j] == chains[j]
    ensures ValidChains(chains) && WellFormedNode(beh) ==> ValidChains(r.0)
  {
    match rcv
    case OnObject => (chains + [[beh]], OnBehavior(|chains|, [0]))
    case OnBehavior(c, path) =>
      var attached := AttachAt(chains[c], path, beh);
      (chains[c := attached.0], OnBehavior(c, attached.1))
  }

  /** Loop(): sets the loop flag on a behaviour and returns it; on a render object it throws. */
  function LoopAt(nodes: seq<Node>, path: seq<nat>): (r: seq<Node>)
    requires ValidPath(nodes, path)
    ensures ValidPath(r, path) && NodeAt(r, path) == NodeAt(nodes, path).(loop := true)
    ensures |r| == |nodes|
    ensures WellFormedChain(nodes) ==> WellFormedChain(r)
    decreases |path|
  {
    var i := path[0];
    if |path| == 1 then
      assert WellFormedNode(nodes[i]) == WellFormedNode(nodes[i].(loop := true));
      Loop(nodes, i)
    else
      var wrapper := nodes[i].(kind := nodes[i].kind.(actual := LoopAt(nodes[i].kind.actual, path[1..])));
      assert WellFormedChain(nodes) ==> WellFormedNode(nodes[i]) && WellFormedNode(wrapper);
      nodes[i := wrapper]
  }

  function LoopReceiver(chains: seq<seq<Node>>, rcv: Receiver): (r: Result<seq<seq<Node>>>)
    requires ValidReceiver(chains, rcv)
    ensures rcv.OnObject? <==> r.Failure?
    ensures r.Success? ==> ValidReceiver(r.value, rcv) && BehaviorAt(r.value, rcv) == BehaviorAt(chains, rcv).(loop := true)
    ensures r.Success? ==> |r.value| == |chains| && forall j :: 0 <= j < |chains| && j != rcv.chain ==> r.value[j] == chains[j]
  {
    match rcv
    case OnObject => Failure("NotImplementedException")
    case OnBehavior(c, path) => Success(chains[c := LoopAt(chains[c], path)])
  }

  // ---------------------------------------------------------------------------
  // Behaviour constructors.

  /** The default(TValue) an animator's startValue holds until OnStart. */
  function DefaultValue(a: Accessor): (v: Value)
    ensures HasKind(a, v)
  {
    if a == PositionAccess || a == SpeedAccess then PointValue(Point(0.0, 0.0)) else FloatValue(0.0)
  }

  /** Change: an absolute animator over the accessor, not attached to anything. */
  function Change(a: Accessor, newValue: Value, durationMs: int): (n: Node)
    requires HasKind(a, newValue)
    ensures n.kind.AnimateAbsolute? && n.kind.access == a && n.kind.target == newValue && n.kind.durationMs == durationMs
    ensures n.startTime == 0 && !n.finished && !n.loop && n.autoStart
    ensures WellFormedNode(n) <==> durationMs > 0
  {
    NewNode(AnimateAbsolute(a, newValue, durationMs, DefaultValue(a)))
  }

  /** ChangeRelativeDirect: a relative change over the accessor, not attached to anything. */
  function ChangeRelativeDirect(a: Accessor, deltaValue: Value): (n: Node)
    requires HasKind(a, deltaValue)
    ensures n.kind == ChangeRelative(a, deltaValue) && WellFormedNode(n)
    ensures n.startTime == 0 && !n.finished && !n.loop && n.autoStart
  {
    NewNode(ChangeRelative(a, deltaValue))
  }

  // ---------------------------------------------------------------------------
  // The fluent helpers: each attaches one new behaviour and returns it.

  function ChangeOpacity(chains: seq<seq<Node>>, rcv: Receiver, newOpacity: real, durationMs: int): (r: (seq<seq<Node>>, Receiver))
    requires ValidReceiver(chains, rcv)
    ensures ValidReceiver(r.0, r.1) && r.1.OnBehavior?
    ensures BehaviorAt(r.0, r.1) == Change(OpacityAccess, FloatValue(newOpacity), durationMs)
  {
    AddBehavior(chains, rcv, Change(OpacityAccess, FloatValue(newOpacity), durationMs))
  }

  function ChangeScale(chains: seq<seq<Node>>, rcv: Receiver, newScale: real, durationMs: int): (r: (seq<seq<Node>>, Receiver))
    requires ValidReceiver(chains, rcv)
    ensures ValidReceiver(r.0, r.1) && r.1.OnBehavior?
    ensures BehaviorAt(r.0, r.1) == Change(ScaleAccess, FloatValue(newScale), durationMs)
  {
    AddBehavior(chains, rcv, Change(ScaleAccess, FloatValue(newScale), durationMs))
  }

  function ChangeRotation(chains: seq<seq<Node>>, rcv: Receiver, newRotation: real, durationMs: int): (r: (seq<seq<Node>>, Receiver))
    requires ValidReceiver(chains, rcv)
    ensures ValidReceiver(r.0, r.1) && r.1.OnBehavior?
    ensures BehaviorAt(r.0, r.1) == Change(RotationAccess, FloatValue(newRotation), durationMs)
  {
    AddBehavior(chains, rcv, Change(RotationAccess, FloatValue(newRotation), durationMs))
  }

  /** Move: a relative change of the position by deltaPos. */
  function Move(chains: seq<seq<Node>>, rcv: Receiver, deltaPos: Point): (r: (seq<seq<Node>>, Receiver))
    requires ValidReceiver(chains, rcv)
    ensures ValidReceiver(r.0, r.1) && r.1.OnBehavior?
    ensures BehaviorAt(r.0, r.1) == ChangeRelativeDirect(PositionAccess, PointValue(deltaPos))
  {
    AddBehavior(chains, rcv, ChangeRelativeDirect(PositionAccess, PointValue(deltaPos)))
  }

  function ChangeSpeedRelative(chains: seq<seq<Node>>, rcv: Receiver, deltaSpeed: Point): (r: (seq<seq<Node>>, Receiver))
    requires ValidReceiver(chains, rcv)
    ensures ValidReceiver(r.0, r.1) && r.1.OnBehavior?
    ensures BehaviorAt(r.0, r.1) == ChangeRelativeDirect(SpeedAccess, PointValue(deltaSpeed))
  {
    AddBehavior(chains, rcv, ChangeRelativeDirect(SpeedAccess, PointValue(deltaSpeed)))
  }

  function Wait(chains: seq<seq<Node>>, rcv: Receiver, durationMs: int): (r: (seq<seq<Node>>, Receiver))
    requires ValidReceiver(chains, rcv)
    ensures ValidReceiver(r.0, r.1) && r.1.OnBehavior?
    ensures BehaviorAt(r.0, r.1) == NewNode(Behavior.Wait(durationMs))
  {
    AddBehavior(chains, rcv, NewNode(Behavior.Wait(durationMs)))
  }

  function ChangeRotationSpeed(chains: seq<seq<Node>>, rcv: Receiver, newSpeed: real, durationMs: int): (r: (seq<seq<Node>>, Receiver))
    requires ValidReceiver(chains, rcv)
    ensures ValidReceiver(r.0, r.1) && r.1.OnBehavior?
    ensures BehaviorAt(r.0, r.1) == Change(RotationSpeedAccess, FloatValue(newSpeed), durationMs)
  {
    AddBehavior(chains, rcv, Change(RotationSpeedAccess, FloatValue(newSpeed), durationMs))
  }

  function ChangeSpeed(chains: seq<seq<Node>>, rcv: Receiver, newSpeed: Point, durationMs: int): (r: (seq<seq<Node>>, Receiver))
    requires ValidReceiver(chains, rcv)
    ensures ValidReceiver(r.0, r.1) && r.1.OnBehavior?
    ensures BehaviorAt(r.0, r.1) == Change(SpeedAccess, PointValue(newSpeed), durationMs)
  {
    AddBehavior(chains, rcv, Change(SpeedAccess, PointValue(newSpeed), durationMs))
  }

  function ChangePosition(chains: seq<seq<Node>>, rcv: Receiver, newPos: Point, durationMs: int): (r: (seq<seq<Node>>, Receiver))
    requires ValidReceiver(chains, rcv)
    ensures ValidReceiver(r.0, r.1) && r.1.OnBehavior?
    ensures BehaviorAt(r.0, r.1) == Change(PositionAccess, PointValue(newPos), durationMs)
  {
    AddBehavior(chains, rcv, Change(PositionAccess, PointValue(newPos), durationMs))
  }

  /** EventHandling.On: attaches a fresh OnEvent without a wrapped behaviour. */
  function On(chains: seq<seq<Node>>, rcv: Receiver, eventType: EventType): (r: (seq<seq<Node>>, Receiver))
    requires ValidReceiver(chains, rcv)
    ensures ValidReceiver(r.0, r.1) && r.1.OnBehavior?
    ensures BehaviorAt(r.0, r.1) == NewNode(OnEvent(eventType, []))
  {
    AddBehavior(chains, rcv, NewNode(OnEvent(eventType, [])))
  }

  // ---------------------------------------------------------------------------
  // How fluent calls compose.

  /** Two fluent calls from a render object build one sequential chain: the second is the first's next. */
  lemma FluentCallsBuildOneChain(chains: seq<seq<Node>>, first: Node, second: Node)
    requires !first.kind.OnEvent?
    ensures var a := AddBehavior(chains, OnObject, first);
            var b := AddBehavior(a.0, a.1, second);
            b.0 == chains + [[first, second]] && b.1 == OnBehavior(|chains|, [1])
  {
    var a := AddBehavior(chains, OnObject, first);
    assert a.0[|chains|] == [first];
    var attached := AttachAt([first], [0], second);
    assert After([first], 0, [second]) == [first, second];
    assert attached == ([first, second], [1]);
    assert a.0[|chains| := [first, second]] == chains + [[first, second]];
  }

  /** On(key) followed by a fluent call wraps that behaviour; the OnEvent keeps no next node. */
  lemma OnWrapsTheNextCall(chains: seq<seq<Node>>, key: EventType, beh: Node)
    ensures var a := On(chains, OnObject, key);
            var b := AddBehavior(a.0, a.1, beh);
            b.0 == chains + [[NewNode(OnEvent(key, [beh]))]] && b.1 == OnBehavior(|chains|, [0, 0])
  {
    var a := On(chains, OnObject, key);
    var wrapper := NewNode(OnEvent(key, []));
    assert a.0[|chains|] == [wrapper];
    var attached := AttachAt([wrapper], [0], beh);
    assert [wrapper][0 := wrapper.(kind := wrapper.kind.(actual := [beh]))] == [NewNode(OnEvent(key, [beh]))];
    assert [0] + [0] == [0, 0];
    assert attached == ([NewNode(OnEvent(key, [beh]))], [0, 0]);
    assert a.0[|chains| := [NewNode(OnEvent(key, [beh]))]] == chains + [[NewNode(OnEvent(key, [beh]))]];
  }

  /** A behaviour attached on a render object starts a new chain with a fresh root. */
  lemma AttachedOnObjectIsNewRoot(chains: seq<seq<Node>>, beh: Node)
    ensures AddBehavior(chains, OnObject, beh).0[|chains|] == [beh]
    ensures AddBehavior(chains, OnObject, beh).0[..|chains|] == chains
  {
  }
}
