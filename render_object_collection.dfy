/**
 * RenderObjectCollection: a render object that draws nothing itself and, after the
 * full update of its subtree, runs the actions collected in its AfterUpdate slot
 * once and clears the slot. The scene graph's top collection holds the slot that
 * RemoveFromParent schedules on, so the removals it defers are modelled as a list
 * of object ids.
 */
module RenderObjectCollection {
  import opened RenderObject

  /** The parameterless constructor. */
  function EmptyCollection(id: Behavior.Id): (e: Entity)
    ensures Valid(e) && e.kind == Collection([]) && e.children == [] && !e.hasChildren
  {
    NewEntity(id, Collection([]))
  }

  /** The params constructor: the objects go into a private list, not into the children. */
  function CollectionWith(id: Behavior.Id, objects: seq<Entity>): (e: Entity)
    ensures Valid(e) && e.kind == Collection(objects) && e.children == [] && !e.hasChildren
  {
    NewEntity(id, Collection(objects))
  }

  /** Objects given to the params constructor are neither updated nor rendered. */
  lemma ParamsObjectsNeverVisited(id: Behavior.Id, objects: seq<Entity>, f: Frame, log: Log, pushes: PropertyAccess.Properties -> bool)
    ensures RenderLog(CollectionWith(id, objects), pushes) == []
    ensures UpdateEntity(CollectionWith(id, objects), f, log).1 == UpdateEntity(EmptyCollection(id), f, log).1
    ensures UpdateEntity(CollectionWith(id, objects), f, log).0.kind == Collection(objects)
  {
  }

  /**
   * Update: the base update of the whole subtree, with the actions it schedules
   * appended to the slot, then the slot's actions in order, then the slot cleared.
   */
  function UpdateCollection(e: Entity, f: Frame, slot: seq<Behavior.Id>, invoked: seq<nat>): (r: (Entity, Log))
    requires TreeOk(e)
    ensures r.1.scheduled == []
  {
    var updated := UpdateEntity(e, f, Log(slot, invoked));
    (RunRemovals(updated.0, updated.1.scheduled), Log([], updated.1.invoked))
  }

  lemma {:induction false} SkeletonKeepsValid(a: Entity, b: Entity)
    requires SkeletonOf(a) == SkeletonOf(b) && UniqueIds(a)
    ensures UniqueIds(b) && IdSet(a) == IdSet(b)
  {
    SameSkeletonSameIds(a, b);
    SameIdsSameSet(a, b);
  }

  /**
   * The removals run only after the whole tree was updated, on a tree whose
   * structure the update left as it was; every object they name, except the
   * collection itself, has left the tree afterwards and no object was added.
   */
  lemma UpdateCollectionRemovesScheduled(e: Entity, f: Frame, slot: seq<Behavior.Id>, invoked: seq<nat>)
    requires Valid(e)
    ensures var updated := UpdateEntity(e, f, Log(slot, invoked));
            var r := UpdateCollection(e, f, slot, invoked);
            && SkeletonOf(updated.0) == SkeletonOf(e)
            && r.0 == RunRemovals(updated.0, updated.1.scheduled)
            && Valid(r.0) && IdSet(r.0) <= IdSet(e) && r.0.id == e.id && r.0.root == e.root
            && forall i :: 0 <= i < |updated.1.scheduled| && updated.1.scheduled[i] != e.id ==>
                 updated.1.scheduled[i] !in IdSet(r.0)
  {
    var updated := UpdateEntity(e, f, Log(slot, invoked));
    SkeletonKeepsValid(e, updated.0);
    RunRemovalsProperties(updated.0, updated.1.scheduled);
  }

  /** With nothing scheduled, an update pass removes nothing. */
  lemma NothingScheduledNothingRemoved(e: Entity, f: Frame, invoked: seq<nat>)
    requires Valid(e) && UpdateEntity(e, f, Log([], invoked)).1.scheduled == []
    ensures SkeletonOf(UpdateCollection(e, f, [], invoked).0) == SkeletonOf(e)
  {
  }
}
