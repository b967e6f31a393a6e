/** EffectsChanger.Explode: a fade-out chain ending in RemoveFromParent, plus a particle child. */
module EffectsChanger {
  import opened PropertyAccess
  import opened Behavior
  import opened BehaviorCollection
  import opened MemberChange
  import opened RenderObject
  import opened Wrappers

  /** The chain Explode attaches: fade the opacity to 0 over 1000 ms, then remove the object. */
  function FadeOutChain(): seq<Node>
  {
    [Change(OpacityAccess, FloatValue(0.0), 1000), NewNode(RemoveFromParent)]
  }

  /**
   * Explode: ChangeOpacity(0, 1000).AddBehavior(new RemoveFromParent()), then a
   * Particles child (an opaque drawable leaf with the given id). Returns the same object.
   */
  function Explode(e: Entity, particlesId: Id, particles: nat): (r: Entity)
    ensures r.id == e.id && r.parent == e.parent && r.root == e.root
    ensures r.behaviors.chains == e.behaviors.chains + [FadeOutChain()]
    ensures r.hasChildren && |r.children| == |e.children| + 1 && r.children[..|e.children|] == e.children
    ensures var p := r.children[|e.children|];
            p.id == particlesId && p.kind == Leaf(particles) && p.parent == Some(e.id) && p.root == e.root
  {
    var faded := ChangeOpacity(e.behaviors.chains, OnObject, 0.0, 1000);
    var chained := AddBehavior(faded.0, faded.1, NewNode(RemoveFromParent));
    FluentCallsBuildOneChain(e.behaviors.chains, Change(OpacityAccess, FloatValue(0.0), 1000), NewNode(RemoveFromParent));
    var withFade := e.(behaviors := e.behaviors.(chains := chained.0));
    var particle := NewEntity(particlesId, Leaf(particles));
    assert Add(withFade, particle).0.children[..|e.children|] == e.children;
    Add(withFade, particle).0
  }

  /** Explode keeps the tree invariant when the particle id is new to the tree. */
  lemma ExplodeKeepsValid(e: Entity, particlesId: Id, particles: nat)
    requires Valid(e) && particlesId !in IdSet(e)
    ensures Valid(Explode(e, particlesId, particles))
    ensures IdSet(Explode(e, particlesId, particles)) == IdSet(e) + {particlesId}
  {
    var withFade := e.(behaviors := e.behaviors.(chains := e.behaviors.chains + [FadeOutChain()]));
    var particle := NewEntity(particlesId, Leaf(particles));
    assert ValidChains(withFade.behaviors.chains);
    SameIdsReflexive(e);
    assert SameIds(e, withFade);
    SameIdsSameSet(e, withFade);
    assert IdSet(particle) == {particlesId};
    AddKeepsValid(withFade, particle);
    assert Explode(e, particlesId, particles) == Add(withFade, particle).0;
  }

  /**
   * The removal is scheduled on the first tick after the fade completes: the tick on
   * which the animator reports done only finishes it; the next tick hands over to
   * RemoveFromParent, which schedules the object and ends the chain.
   */
  lemma FadeThenRemove(c: seq<Node>, env1: Env, eff1: Effects, env2: Env, eff2: Effects)
    requires |c| == 2 && WellFormedChain(c) && c[1] == NewNode(RemoveFromParent)
    requires !c[0].finished && !c[0].loop && StepAt(c, 0, env1, eff1).done
    ensures var t1 := UpdateObject(c, 0, env1, eff1);
            && !t1.done && t1.nodes[0].finished && t1.nodes[1] == c[1]
            && var t2 := UpdateObject(t1.nodes, 0, env2, eff2);
               t2.done && t2.eff.scheduled == eff2.scheduled + [env2.self]
  {
    var t1 := UpdateObject(c, 0, env1, eff1);
    assert t1.nodes[1] == c[1];
    var s2 := StepAt(t1.nodes, 1, env2, eff2);
    assert s2.done && s2.eff.scheduled == eff2.scheduled + [env2.self] && !s2.node.loop;
    assert UpdateObject(t1.nodes, 0, env2, eff2) == UpdateObject(t1.nodes, 1, env2, eff2);
    assert UpdateObject(t1.nodes, 1, env2, eff2) == Complete(t1.nodes, 1, s2);
  }

  /** The fade chain Explode attaches is well formed, so it can be ticked. */
  lemma FadeOutChainIsValid()
    ensures WellFormedChain(FadeOutChain()) && !FadeOutChain()[0].loop && !FadeOutChain()[0].finished
    ensures FadeOutChain()[1] == NewNode(RemoveFromParent)
  {
  }
}
