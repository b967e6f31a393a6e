/**
 * ARenderObject: the render tree. An object is identified by its id; its children
 * list (null until the first Add), hasChildren flag, Parent and Root (the scene graph
 * it belongs to) are fields of the Entity value, and the tree is held by nesting.
 */
module RenderObject {
  import opened Wrappers
  import opened FloatHelper
  import opened PointfExtensions
  import opened PropertyAccess
  import opened Events
  import opened Behavior
  import opened BehaviorCollection

  /** The concrete object: a collection (with the list its params constructor fills), or a drawable leaf. */
  datatype ObjectKind = Collection(unvisited: seq<Entity>) | Leaf(drawing: nat)

  datatype Entity = Entity(
    id: Id,
    kind: ObjectKind,
    props: Properties,
    behaviors: BehaviorSet,
    previousTimeStamp: int,
    hasList: bool,
    hasChildren: bool,
    children: seq<Entity>,
    parent: Option<Id>,
    root: Option<nat>)

  /** The object as the constructor leaves it: Scale and Opacity 1, an empty behaviour set, no list. */
  function NewEntity(id: Id, kind: ObjectKind): (e: Entity)
    ensures e.props.scale == 1.0 && e.props.opacity == 1.0
    ensures e.behaviors.chains == [] && !e.hasList && e.children == [] && e.parent.None? && e.root.None?
    ensures Valid(e)
  {
    Entity(id, kind, Properties(Point(0.0, 0.0), Point(0.0, 0.0), 0.0, 0.0, 1.0, 1.0),
           BehaviorSet(0, false, []), 0, false, false, [], None, None)
  }

  // ---------------------------------------------------------------------------
  // Identity and the tree invariant.

  function IdSet(e: Entity): set<Id>
    decreases e
  {
    {e.id} + IdSetOf(e.children)
  }

  function IdSetOf(cs: seq<Entity>): set<Id>
    decreases cs
  {
    if |cs| == 0 then {} else IdSetOf(cs[..|cs| - 1]) + IdSet(cs[|cs| - 1])
  }

  /** No object occurs twice: a tree, not a graph with shared children. */
  predicate UniqueIds(e: Entity)
    decreases e
  {
    && e.id !in IdSetOf(e.children)
    && (forall j, k :: 0 <= j < k < |e.children| ==> IdSet(e.children[j]) !! IdSet(e.children[k]))
    && (forall k :: 0 <= k < |e.children| ==> UniqueIds(e.children[k]))
  }

  /**
   * The links ARenderObject keeps consistent: hasChildren tells whether the list is
   * non-empty, there are children only once the list exists, every child's Parent
   * is this object and its Root is this object's Root; behaviour chains are well formed.
   */
  predicate TreeOk(e: Entity)
    decreases e
  {
    && (e.hasChildren <==> |e.children| > 0)
    && (e.hasList || |e.children| == 0)
    && ValidChains(e.behaviors.chains)
    && (forall k :: 0 <= k < |e.children| ==>
          e.children[k].parent == Some(e.id) && e.children[k].root == e.root && TreeOk(e.children[k]))
  }

  predicate Valid(e: Entity)
  {
    TreeOk(e) && UniqueIds(e)
  }

  /** The same objects in the same places. */
  predicate SameIds(a: Entity, b: Entity)
    decreases a
  {
    a.id == b.id && |a.children| == |b.children| &&
    forall k :: 0 <= k < |a.children| ==> SameIds(a.children[k], b.children[k])
  }

  lemma {:induction false} SameIdsReflexive(e: Entity)
    ensures SameIds(e, e)
    decreases e
  {
    forall k | 0 <= k < |e.children| ensures SameIds(e.children[k], e.children[k]) {
      SameIdsReflexive(e.children[k]);
    }
  }

  lemma {:induction false} InIdSetOf(cs: seq<Entity>, x: Id)
    ensures x in IdSetOf(cs) <==> exists k :: 0 <= k < |cs| && x in IdSet(cs[k])
    decreases |cs|
  {
    if |cs| > 0 {
      var init := cs[..|cs| - 1];
      InIdSetOf(init, x);
      if x in IdSetOf(init) {
        var k :| 0 <= k < |init| && x in IdSet(init[k]);
        assert cs[k] == init[k];
      }
      if exists k :: 0 <= k < |cs| && x in IdSet(cs[k]) {
        var k :| 0 <= k < |cs| && x in IdSet(cs[k]);
        if k < |cs| - 1 {
          assert init[k] == cs[k];
        }
      }
    }
  }

  lemma {:induction false} SameIdsSameSet(a: Entity, b: Entity)
    requires SameIds(a, b)
    ensures IdSet(a) == IdSet(b)
    ensures UniqueIds(a) <==> UniqueIds(b)
    decreases a
  {
    forall k | 0 <= k < |a.children|
      ensures IdSet(a.children[k]) == IdSet(b.children[k])
      ensures UniqueIds(a.children[k]) <==> UniqueIds(b.children[k])
    {
      SameIdsSameSet(a.children[k], b.children[k]);
    }
    forall x ensures x in IdSetOf(a.children) <==> x in IdSetOf(b.children) {
      InIdSetOf(a.children, x);
      InIdSetOf(b.children, x);
    }
  }

  // ---------------------------------------------------------------------------
  // The Root setter and the structure an update leaves alone.

  predicate AllRootsAre(e: Entity, r: Option<nat>)
    decreases e
  {
    e.root == r && forall k :: 0 <= k < |e.children| ==> AllRootsAre(e.children[k], r)
  }

  /** Root = value: stores it and, when the list exists, sets it on every child's subtree. */
  function SetRoot(e: Entity, r: Option<nat>): (res: Entity)
    decreases e
  {
    e.(root := r,
       children := if e.hasList then seq(|e.children|, k requires 0 <= k < |e.children| => SetRoot(e.children[k], r))
                   else e.children)
  }

  lemma {:induction false} SetRootProperties(e: Entity, r: Option<nat>)
    ensures SameIds(SetRoot(e, r), e)
    ensures TreeOk(e) ==> TreeOk(SetRoot(e, r)) && AllRootsAre(SetRoot(e, r), r)
    ensures SetRoot(e, r).parent == e.parent && SetRoot(e, r).hasChildren == e.hasChildren
    ensures SetRoot(e, r).props == e.props && SetRoot(e, r).behaviors == e.behaviors
    decreases e
  {
    var res := SetRoot(e, r);
    forall k | 0 <= k < |e.children|
      ensures SameIds(res.children[k], e.children[k])
      ensures TreeOk(e) ==> TreeOk(res.children[k]) && AllRootsAre(res.children[k], r)
      ensures res.children[k].parent == e.children[k].parent
    {
      if e.hasList {
        SetRootProperties(e.children[k], r);
      } else {
        SameIdsReflexive(e.children[k]);
      }
    }
  }

  /** What Update leaves unchanged: ids, links, flags and kind, throughout the tree. */
  datatype Skeleton = Skeleton(id: Id, kind: ObjectKind, hasList: bool, hasChildren: bool,
                               parent: Option<Id>, root: Option<nat>, children: seq<Skeleton>)

  function SkeletonOf(e: Entity): Skeleton
    decreases e
  {
    Skeleton(e.id, e.kind, e.hasList, e.hasChildren, e.parent, e.root,
             seq(|e.children|, k requires 0 <= k < |e.children| => SkeletonOf(e.children[k])))
  }

  lemma {:induction false} SameSkeletonSameIds(a: Entity, b: Entity)
    requires SkeletonOf(a) == SkeletonOf(b)
    ensures SameIds(a, b)
    decreases a
  {
    assert |a.children| == |SkeletonOf(a).children|;
    forall k | 0 <= k < |a.children| ensures SameIds(a.children[k], b.children[k]) {
      assert SkeletonOf(a).children[k] == SkeletonOf(b).children[k];
      SameSkeletonSameIds(a.children[k], b.children[k]);
    }
  }

  // ---------------------------------------------------------------------------
  // Add and Remove.

  /**
   * Add: creates the list if needed, appends the child, sets its Parent and hasChildren,
   * then sets Root on the child's subtree to this object's Root. Returns the updated
   * parent and the child as attached.
   */
  function Add(p: Entity, c: Entity): (r: (Entity, Entity))
    ensures r.0.children == p.children + [r.1] && r.0.hasList && r.0.hasChildren
    ensures r.1.id == c.id && r.1.parent == Some(p.id) && SameIds(r.1, c)
    ensures TreeOk(c) ==> AllRootsAre(r.1, p.root)
    ensures r.0.id == p.id && r.0.parent == p.parent && r.0.root == p.root && r.0.props == p.props
  {
    SetRootProperties(c.(parent := Some(p.id)), p.root);
    var attached := SetRoot(c.(parent := Some(p.id)), p.root);
    (p.(hasList := true, hasChildren := true, children := p.children + [attached]), attached)
  }

  lemma AddKeepsValid(p: Entity, c: Entity)
    requires Valid(p) && Valid(c) && IdSet(p) !! IdSet(c)
    ensures Valid(Add(p, c).0)
    ensures IdSet(Add(p, c).0) == IdSet(p) + IdSet(c)
  {
    var r := Add(p, c);
    SetRootProperties(c.(parent := Some(p.id)), p.root);
    SameIdsSameSet(r.1, c.(parent := Some(p.id)));
    assert IdSet(c.(parent := Some(p.id))) == IdSet(c);
    assert UniqueIds(c.(parent := Some(p.id))) == UniqueIds(c);
    assert r.0.children[..|r.0.children| - 1] == p.children;
    assert IdSetOf(r.0.children) == IdSetOf(p.children) + IdSet(c);
    forall j | 0 <= j < |p.children| ensures IdSet(r.0.children[j]) !! IdSet(r.1) {
      forall x | x in IdSet(p.children[j]) ensures x in IdSetOf(p.children) {
        InIdSetOf(p.children, x);
      }
    }
  }

  /** The index of the first child with the given id. */
  function FirstWithId(cs: seq<Entity>, id: Id): (k: nat)
    requires exists k :: 0 <= k < |cs| && cs[k].id == id
    ensures k < |cs| && cs[k].id == id && forall j :: 0 <= j < k ==> cs[j].id != id
    decreases |cs|
  {
    if cs[0].id == id then 0
    else
      assert exists k :: 0 <= k < |cs[1..]| && cs[1..][k].id == id by {
        var k :| 0 <= k < |cs| && cs[k].id == id;
        assert cs[1..][k - 1] == cs[k];
      }
      1 + FirstWithId(cs[1..], id)
  }

  // ---------------------------------------------------------------------------
  // Dropping one child keeps the invariant.

  function DropAt(cs: seq<Entity>, k: nat): (r: seq<Entity>)
    requires k < |cs|
    ensures |r| == |cs| - 1
    ensures forall j :: 0 <= j < |r| ==> r[j] == cs[if j < k then j else j + 1]
  {
    cs[..k] + cs[k + 1..]
  }

  /** List.Remove: drops the first element with the given id, if there is one. */
  function RemoveFirst(cs: seq<Entity>, id: Id): (r: seq<Entity>)
    ensures (forall k :: 0 <= k < |cs| ==> cs[k].id != id) ==> r == cs
    ensures forall k :: 0 <= k < |cs| && cs[k].id == id && (forall j :: 0 <= j < k ==> cs[j].id != id) ==>
              r == DropAt(cs, k)
  {
    if exists k :: 0 <= k < |cs| && cs[k].id == id then DropAt(cs, FirstWithId(cs, id)) else cs
  }

  predicate PairwiseDisjoint(cs: seq<Entity>)
  {
    forall j, k :: 0 <= j < k < |cs| ==> IdSet(cs[j]) !! IdSet(cs[k])
  }

  lemma DropAtIds(cs: seq<Entity>, k: nat)
    requires k < |cs| && PairwiseDisjoint(cs)
    ensures PairwiseDisjoint(DropAt(cs, k))
    ensures IdSetOf(DropAt(cs, k)) == IdSetOf(cs) - IdSet(cs[k])
  {
    DropAtDisjoint(cs, k);
    DropAtIdSet(cs, k);
  }

  lemma DropAtDisjoint(cs: seq<Entity>, k: nat)
    requires k < |cs| && PairwiseDisjoint(cs)
    ensures PairwiseDisjoint(DropAt(cs, k))
  {
    var r := DropAt(cs, k);
    forall i, j | 0 <= i < j < |r|
      ensures IdSet(r[i]) !! IdSet(r[j])
    {
      var i', j' := if i < k then i else i + 1, if j < k then j else j + 1;
      assert r[i] == cs[i'] && r[j] == cs[j'] && i' < j';
    }
  }

  lemma DropAtIdSet(cs: seq<Entity>, k: nat)
    requires k < |cs| && PairwiseDisjoint(cs)
    ensures IdSetOf(DropAt(cs, k)) == IdSetOf(cs) - IdSet(cs[k])
  {
    var before, after := cs[..k], cs[k + 1..];
    var a, b := IdSetOf(before), IdSetOf(after);
    assert IdSetOf(cs) == a + IdSet(cs[k]) + b by {
      assert cs == before + [cs[k]] + after;
      IdSetOfConcat(before + [cs[k]], after);
      IdSetOfConcat(before, [cs[k]]);
      assert IdSetOf([cs[k]]) == IdSet(cs[k]) by { assert [cs[k]][..0] == []; }
    }
    assert IdSetOf(DropAt(cs, k)) == a + b by {
      assert DropAt(cs, k) == before + after;
      IdSetOfConcat(before, after);
    }
    ApartFromKth(cs, k);
  }

  lemma {:induction false} IdSetOfConcat(a: seq<Entity>, b: seq<Entity>)
    ensures IdSetOf(a + b) == IdSetOf(a) + IdSetOf(b)
    decreases |b|
  {
    if |b| > 0 {
      var init := b[..|b| - 1];
      assert (a + b)[..|a + b| - 1] == a + init;
      IdSetOfConcat(a, init);
    } else {
      assert a + b == a;
    }
  }

  lemma {:induction false} ApartFromAll(cs: seq<Entity>, ids: set<Id>)
    requires forall i :: 0 <= i < |cs| ==> IdSet(cs[i]) !! ids
    ensures IdSetOf(cs) !! ids
    decreases |cs|
  {
    if |cs| > 0 {
      var init := cs[..|cs| - 1];
      forall i | 0 <= i < |init| ensures IdSet(init[i]) !! ids {
        assert init[i] == cs[i];
      }
      ApartFromAll(init, ids);
    }
  }

  /** In a list of disjoint subtrees, the k-th shares no id with those before it or after it. */
  lemma ApartFromKth(cs: seq<Entity>, k: nat)
    requires k < |cs| && PairwiseDisjoint(cs)
    ensures IdSetOf(cs[..k]) !! IdSet(cs[k]) && IdSetOf(cs[k + 1..]) !! IdSet(cs[k])
  {
    var before, after := cs[..k], cs[k + 1..];
    forall i | 0 <= i < |before| ensures IdSet(before[i]) !! IdSet(cs[k]) {
      assert before[i] == cs[i];
    }
    forall i | 0 <= i < |after| ensures IdSet(after[i]) !! IdSet(cs[k]) {
      assert after[i] == cs[k + 1 + i];
    }
    ApartFromAll(before, IdSet(cs[k]));
    ApartFromAll(after, IdSet(cs[k]));
  }

  /**
   * Remove: when the list exists, drops the child from it, nulls the removed
   * object's Parent and its subtree's Root, and clears hasChildren once the list is
   * empty. Without a list nothing happens, not even to the argument.
   */
  function Remove(p: Entity, c: Entity): (r: (Entity, Entity))
    ensures !p.hasList ==> r == (p, c)
    ensures p.hasList ==> r.0.children == RemoveFirst(p.children, c.id) && r.1.parent.None? && SameIds(r.1, c)
    ensures p.hasList && TreeOk(c) ==> AllRootsAre(r.1, None)
    ensures r.0.id == p.id && r.0.parent == p.parent && r.0.root == p.root && r.0.props == p.props
    ensures p.hasList ==> (r.0.hasChildren <==> p.hasChildren && |r.0.children| > 0)
  {
    if !p.hasList then (p, c)
    else
      var remaining := RemoveFirst(p.children, c.id);
      SetRootProperties(c.(parent := None), None);
      (p.(children := remaining, hasChildren := if |remaining| == 0 then false else p.hasChildren),
       SetRoot(c.(parent := None), None))
  }

  /** Removing child k of a valid object leaves a valid object without k's subtree. */
  lemma RemoveChildKeepsValid(p: Entity, k: nat)
    requires Valid(p) && k < |p.children|
    ensures Valid(Remove(p, p.children[k]).0)
    ensures IdSet(Remove(p, p.children[k]).0) == IdSet(p) - IdSet(p.children[k])
    ensures p.children[k].id !in IdSet(Remove(p, p.children[k]).0)
  {
    RemoveChildShape(p, k);
    DropChildKeepsValid(p, k);
  }

  /** Remove with any argument keeps a valid object valid and adds no object. */
  lemma RemoveKeepsValid(p: Entity, c: Entity)
    requires Valid(p)
    ensures Valid(Remove(p, c).0) && IdSet(Remove(p, c).0) <= IdSet(p)
    ensures (forall k :: 0 <= k < |p.children| ==> p.children[k].id != c.id) ==> Remove(p, c).0.children == p.children
    ensures p.hasList && (exists k :: 0 <= k < |p.children| && p.children[k].id == c.id) ==>
              c.id !in IdSet(Remove(p, c).0)
  {
    if p.hasList {
      if exists k :: 0 <= k < |p.children| && p.children[k].id == c.id {
        var k := FirstWithId(p.children, c.id);
        RemoveChildShape(p, k);
        DropChildKeepsValid(p, k);
        assert Remove(p, c).0 == Remove(p, p.children[k]).0;
      }
    }
  }

  lemma DropChildKeepsValid(p: Entity, k: nat)
    requires Valid(p) && k < |p.children|
    ensures var r := p.(children := DropAt(p.children, k), hasChildren := |p.children| > 1);
            Valid(r) && IdSet(r) == IdSet(p) - IdSet(p.children[k]) && p.children[k].id !in IdSet(r)
  {
    var r := p.(children := DropAt(p.children, k), hasChildren := |p.children| > 1);
    DropAtIds(p.children, k);
    assert p.id !in IdSet(p.children[k]) by {
      InIdSetOf(p.children, p.id);
    }
    forall j | 0 <= j < |r.children|
      ensures r.children[j].parent == Some(r.id) && r.children[j].root == r.root
      ensures TreeOk(r.children[j]) && UniqueIds(r.children[j])
    {
      assert r.children[j] == p.children[if j < k then j else j + 1];
    }
    assert TreeOk(r);
    assert UniqueIds(r);
  }

  lemma RemoveChildShape(p: Entity, k: nat)
    requires Valid(p) && k < |p.children|
    ensures Remove(p, p.children[k]).0 == p.(children := DropAt(p.children, k), hasChildren := |p.children| > 1)
  {
    FirstWithOwnId(p.children, k);
  }

  lemma FirstWithOwnId(cs: seq<Entity>, k: nat)
    requires k < |cs| && PairwiseDisjoint(cs)
    ensures FirstWithId(cs, cs[k].id) == k
  {
    var f := FirstWithId(cs, cs[k].id);
    assert cs[k].id in IdSet(cs[f]);
    assert cs[k].id in IdSet(cs[k]);
  }

  // ---------------------------------------------------------------------------
  // The deferred removal "ro.Parent.Remove(ro)", run on the whole tree.

  /**
   * Removes the object with the given id from whichever object lists it when the
   * action runs. An id that is no longer in the tree changes nothing.
   */
  function RemoveFromTree(e: Entity, id: Id): (r: Entity)
    decreases e
  {
    if exists k :: 0 <= k < |e.children| && e.children[k].id == id then
      Remove(e, e.children[FirstWithId(e.children, id)]).0
    else
      e.(children := seq(|e.children|, k requires 0 <= k < |e.children| => RemoveFromTree(e.children[k], id)))
  }

  lemma {:induction false} IdSetOfMono(cs: seq<Entity>, ds: seq<Entity>)
    requires |cs| == |ds| && forall k :: 0 <= k < |cs| ==> IdSet(ds[k]) <= IdSet(cs[k])
    ensures IdSetOf(ds) <= IdSetOf(cs)
  {
    forall x | x in IdSetOf(ds) ensures x in IdSetOf(cs) {
      InIdSetOf(ds, x);
      InIdSetOf(cs, x);
    }
  }

  lemma {:induction false} RemoveFromTreeProperties(e: Entity, id: Id)
    requires Valid(e)
    ensures Valid(RemoveFromTree(e, id)) && IdSet(RemoveFromTree(e, id)) <= IdSet(e)
    ensures id != e.id ==> id !in IdSet(RemoveFromTree(e, id))
    ensures id !in IdSet(e) ==> RemoveFromTree(e, id) == e
    ensures RemoveFromTree(e, id).id == e.id && RemoveFromTree(e, id).root == e.root
    ensures RemoveFromTree(e, id).parent == e.parent
    decreases e, 1
  {
    if exists k :: 0 <= k < |e.children| && e.children[k].id == id {
      var k := FirstWithId(e.children, id);
      RemoveChildKeepsValid(e, k);
      assert id in IdSet(e.children[k]);
      InIdSetOf(e.children, id);
    } else {
      RemoveBelowChildren(e, id);
    }
  }

  lemma {:induction false} RemoveBelowChildren(e: Entity, id: Id)
    requires Valid(e) && forall k :: 0 <= k < |e.children| ==> e.children[k].id != id
    ensures var r := e.(children := seq(|e.children|, k requires 0 <= k < |e.children| => RemoveFromTree(e.children[k], id)));
            Valid(r) && IdSet(r) <= IdSet(e) && (id != e.id ==> id !in IdSet(r)) && (id !in IdSet(e) ==> r == e)
    decreases e, 0
  {
    var r := e.(children := seq(|e.children|, k requires 0 <= k < |e.children| => RemoveFromTree(e.children[k], id)));
    forall k | 0 <= k < |e.children|
      ensures Valid(r.children[k]) && IdSet(r.children[k]) <= IdSet(e.children[k])
      ensures id !in IdSet(r.children[k])
      ensures id !in IdSet(e.children[k]) ==> r.children[k] == e.children[k]
      ensures r.children[k].parent == e.children[k].parent && r.children[k].root == e.children[k].root
    {
      RemoveFromTreeProperties(e.children[k], id);
    }
    IdSetOfMono(e.children, r.children);
    InIdSetOf(r.children, id);
    if id !in IdSet(e) {
      forall k | 0 <= k < |e.children| ensures id !in IdSet(e.children[k]) {
        InIdSetOf(e.children, id);
      }
      assert r.children == e.children;
    }
    assert TreeOk(r);
    assert UniqueIds(r);
  }

  /** Runs the scheduled removals in scheduling order. */
  function RunRemovals(e: Entity, ids: seq<Id>): (r: Entity)
    decreases |ids|
  {
    if |ids| == 0 then e else RunRemovals(RemoveFromTree(e, ids[0]), ids[1..])
  }

  lemma {:induction false} RunRemovalsProperties(e: Entity, ids: seq<Id>)
    requires Valid(e)
    ensures Valid(RunRemovals(e, ids)) && IdSet(RunRemovals(e, ids)) <= IdSet(e)
    ensures RunRemovals(e, ids).id == e.id && RunRemovals(e, ids).root == e.root
    ensures forall i :: 0 <= i < |ids| && ids[i] != e.id ==> ids[i] !in IdSet(RunRemovals(e, ids))
    decreases |ids|
  {
    if |ids| > 0 {
      var next := RemoveFromTree(e, ids[0]);
      RemoveFromTreeProperties(e, ids[0]);
      RunRemovalsProperties(next, ids[1..]);
      forall i | 1 <= i < |ids| ensures ids[i] == ids[1..][i - 1] {
      }
    }
  }

  // ---------------------------------------------------------------------------
  // Update: motion, then the behaviour set, then the children, then the timestamp.

  /** Seconds since the previous update. */
  function DeltaSeconds(previous: int, timestamp: int): real
  {
    (timestamp - previous) as real / 1000.0
  }

  /** The rotation step: 360 is subtracted once, and only from a result above 360. */
  function RotationStep(rotation: real, rotationSpeed: real, dt: real): (r: real)
    ensures rotation + rotationSpeed * dt <= 360.0 ==> r == rotation + rotationSpeed * dt
    ensures rotation + rotationSpeed * dt > 360.0 ==> r == rotation + rotationSpeed * dt - 360.0
  {
    var turned := rotation + rotationSpeed * dt;
    if turned > 360.0 then turned - 360.0 else turned
  }

  /** The speed-driven part of Update; nothing moves on the first update. */
  function Motion(p: Properties, previous: int, timestamp: int): (r: Properties)
    ensures r.speed == p.speed && r.rotationSpeed == p.rotationSpeed && r.scale == p.scale && r.opacity == p.opacity
    ensures previous == 0 ==> r == p
    ensures previous != 0 && FloatEquals(p.rotationSpeed, 0.0) ==> r.rotation == p.rotation
    ensures previous != 0 && !FloatEquals(p.rotationSpeed, 0.0) ==>
              r.rotation == RotationStep(p.rotation, p.rotationSpeed, DeltaSeconds(previous, timestamp))
    ensures FloatEquals(p.speed.x, 0.0) && FloatEquals(p.speed.y, 0.0) ==> r.position == p.position
    ensures previous != 0 && (!FloatEquals(p.speed.x, 0.0) || !FloatEquals(p.speed.y, 0.0)) ==>
              r.position == PointfExtensions.Add(p.position, Multiply(p.speed, DeltaSeconds(previous, timestamp)))
  {
    if previous == 0 then p
    else
      var dt := DeltaSeconds(previous, timestamp);
      var turned := if !FloatEquals(p.rotationSpeed, 0.0) then p.(rotation := RotationStep(p.rotation, p.rotationSpeed, dt)) else p;
      if !FloatEquals(p.speed.x, 0.0) || !FloatEquals(p.speed.y, 0.0) then
        // Position + Speed * dt, component by component.
        turned.(position := PointfExtensions.Add(turned.position, Multiply(turned.speed, dt)))
      else turned
  }

  /** An angle in [0, 360] turned by at most a full turn forwards stays in [0, 360]. */
  lemma RotationStaysInRange(rotation: real, rotationSpeed: real, dt: real)
    requires 0.0 <= rotation <= 360.0 && 0.0 <= rotationSpeed * dt <= 360.0
    ensures 0.0 <= RotationStep(rotation, rotationSpeed, dt) <= 360.0
  {
  }

  /** Negative angles are never wrapped back. */
  lemma NegativeRotationNotWrapped(rotation: real, rotationSpeed: real, dt: real)
    requires rotation + rotationSpeed * dt < 0.0
    ensures RotationStep(rotation, rotationSpeed, dt) < 0.0
  {
  }

  /** With a constant speed, the distance covered by two updates depends only on the total time. */
  lemma MotionAdds(p: Properties, t0: int, t1: int, t2: int)
    requires t0 != 0 && t1 != 0
    requires !FloatEquals(p.speed.x, 0.0) || !FloatEquals(p.speed.y, 0.0)
    ensures Motion(Motion(p, t0, t1), t1, t2).position ==
            PointfExtensions.Add(p.position, Multiply(p.speed, DeltaSeconds(t0, t2)))
  {
    var dt1 := DeltaSeconds(t0, t1);
    var dt2 := DeltaSeconds(t1, t2);
    assert DeltaSeconds(t0, t2) == dt1 + dt2;
    assert p.speed.x * dt1 + p.speed.x * dt2 == p.speed.x * (dt1 + dt2);
    assert p.speed.y * dt1 + p.speed.y * dt2 == p.speed.y * (dt1 + dt2);
  }

  /** One frame's inputs: the virtual timestamp, the keys pressed, the easing. */
  datatype Frame = Frame(timestamp: int, pressed: set<EventType>, ease: real -> real)

  /** The removals scheduled on Root.AfterUpdate and the callbacks invoked, in order. */
  datatype Log = Log(scheduled: seq<Id>, invoked: seq<nat>)

  predicate Stamped(e: Entity, t: int)
    decreases e
  {
    e.previousTimeStamp == t && forall k :: 0 <= k < |e.children| ==> Stamped(e.children[k], t)
  }

  /** The object itself after motion and its behaviour set, before its children. */
  function UpdateSelf(e: Entity, f: Frame, log: Log): (r: (Entity, Log))
    requires ValidChains(e.behaviors.chains)
    ensures ValidChains(r.0.behaviors.chains) && r.0.previousTimeStamp == f.timestamp
    ensures SkeletonOf(r.0) == SkeletonOf(e) && r.0.children == e.children
  {
    var moved := Motion(e.props, e.previousTimeStamp, f.timestamp);
    var ticked := UpdateSet(e.behaviors, Env(f.timestamp, e.id, f.pressed, f.ease),
                            Effects(moved, log.scheduled, log.invoked));
    (e.(props := ticked.2.obj, behaviors := ticked.0, previousTimeStamp := f.timestamp),
     Log(ticked.2.scheduled, ticked.2.invoked))
  }

  /**
   * Update: the object itself, then (when hasChildren) each child in list order,
   * threading the log. The tree's skeleton is left unchanged and every object ends
   * stamped with the timestamp.
   */
  function UpdateEntity(e: Entity, f: Frame, log: Log): (r: (Entity, Log))
    requires TreeOk(e)
    ensures TreeOk(r.0) && SkeletonOf(r.0) == SkeletonOf(e) && Stamped(r.0, f.timestamp)
    decreases e, 1
  {
    var self := UpdateSelf(e, f, log);
    if e.hasChildren then
      var kids := UpdateChildren(e.children, f, self.1);
      assert SkeletonOf(self.0.(children := kids.0)).children == SkeletonOf(e).children;
      (self.0.(children := kids.0), kids.1)
    else
      (self.0, self.1)
  }

  function UpdateChildren(cs: seq<Entity>, f: Frame, log: Log): (r: (seq<Entity>, Log))
    requires forall k :: 0 <= k < |cs| ==> TreeOk(cs[k])
    ensures |r.0| == |cs|
    ensures forall k :: 0 <= k < |cs| ==>
              TreeOk(r.0[k]) && SkeletonOf(r.0[k]) == SkeletonOf(cs[k]) && Stamped(r.0[k], f.timestamp)
    decreases cs, 0
  {
    if |cs| == 0 then ([], log)
    else
      var init := UpdateChildren(cs[..|cs| - 1], f, log);
      var last := UpdateEntity(cs[|cs| - 1], f, init.1);
      (init.0 + [last.0], last.1)
  }

  /** One more child: the prefix's results extended by that child's update. */
  lemma UpdateChildrenStep(cs: seq<Entity>, i: int, f: Frame, log: Log)
    requires forall k :: 0 <= k < |cs| ==> TreeOk(cs[k])
    requires 0 <= i < |cs|
    ensures var init := UpdateChildren(cs[..i], f, log);
            var last := UpdateEntity(cs[i], f, init.1);
            UpdateChildren(cs[..i + 1], f, log) == (init.0 + [last.0], last.1)
  {
    assert cs[..i + 1][..i] == cs[..i];
  }

  /** ARenderObject.Update: the object itself, then its foreach over the children. */
  method Update(e: Entity, f: Frame, log: Log) returns (r: Entity, out: Log)
    requires TreeOk(e)
    ensures (r, out) == UpdateEntity(e, f, log)
    decreases e, 1
  {
    var self := UpdateSelf(e, f, log);
    r, out := self.0, self.1;
    if e.hasChildren {
      var children;
      children, out := UpdateEach(e.children, f, out);
      r := r.(children := children);
    }
  }

  /** The foreach of Update: each child in list order, threading the log. */
  method UpdateEach(cs: seq<Entity>, f: Frame, log: Log) returns (children: seq<Entity>, out: Log)
    requires forall k :: 0 <= k < |cs| ==> TreeOk(cs[k])
    ensures (children, out) == UpdateChildren(cs, f, log)
    decreases cs, 0
  {
    children, out := [], log;
    var i := 0;
    while i < |cs|
      invariant 0 <= i <= |cs|
      invariant UpdateChildren(cs[..i], f, log) == (children, out)
    {
      UpdateChildrenStep(cs, i, f, log);
      var child, childLog := Update(cs[i], f, out);
      children := children + [child];
      out := childLog;
      i := i + 1;
    }
    assert cs[..i] == cs;
  }

  /** An object without behaviours only moves: its properties are the motion step's. */
  lemma WithoutBehaviorsOnlyMotion(e: Entity, f: Frame, log: Log)
    requires TreeOk(e) && e.behaviors.chains == []
    ensures UpdateEntity(e, f, log).0.props == Motion(e.props, e.previousTimeStamp, f.timestamp)
    ensures !e.hasChildren ==> UpdateEntity(e, f, log).1 == log
  {
  }

  // ---------------------------------------------------------------------------
  // Render.

  /** What the render context is asked to do: draw an object, push or pop the transform. */
  datatype Command = Draw(id: Id) | PushMatrix | PopMatrix

  /**
   * Render: RenderInternal (a leaf draws itself, a collection draws nothing), then,
   * with children, Transform (which pushes exactly when it returns true, as the
   * context decides from the object's properties), the children, and PopMatrix
   * iff Transform returned true.
   */
  function RenderLog(e: Entity, pushes: Properties -> bool): seq<Command>
    decreases e, 1
  {
    var own := if e.kind.Leaf? then [Draw(e.id)] else [];
    if e.hasChildren then
      var push := pushes(e.props);
      own + (if push then [PushMatrix] else []) + RenderAll(e.children, pushes) + (if push then [PopMatrix] else [])
    else own
  }

  function RenderAll(cs: seq<Entity>, pushes: Properties -> bool): seq<Command>
    decreases cs, 0
  {
    if |cs| == 0 then [] else RenderAll(cs[..|cs| - 1], pushes) + RenderLog(cs[|cs| - 1], pushes)
  }

  /** ARenderObject.Render with its foreach over the children. */
  method Render(e: Entity, pushes: Properties -> bool) returns (log: seq<Command>)
    ensures log == RenderLog(e, pushes)
    decreases e
  {
    var own := if e.kind.Leaf? then [Draw(e.id)] else [];
    log := own;
    if e.hasChildren {
      var needRestore := pushes(e.props);
      var inner: seq<Command> := [];
      var i := 0;
      while i < |e.children|
        invariant 0 <= i <= |e.children|
        invariant inner == RenderAll(e.children[..i], pushes)
      {
        assert e.children[..i + 1][..i] == e.children[..i];
        var childLog := Render(e.children[i], pushes);
        inner := inner + childLog;
        i := i + 1;
      }
      assert e.children[..i] == e.children;
      log := own + (if needRestore then [PushMatrix] else []) + inner + (if needRestore then [PopMatrix] else []);
    }
  }

  /** The number of open transform scopes after a command log. */
  function Depth(log: seq<Command>): int
    decreases |log|
  {
    if |log| == 0 then 0
    else Depth(log[..|log| - 1]) + (match log[|log| - 1] case PushMatrix => 1 case PopMatrix => -1 case Draw(_) => 0)
  }

  /** Every pop matches an earlier push and every push is popped. */
  predicate Balanced(log: seq<Command>)
  {
    Depth(log) == 0 && forall i :: 0 <= i <= |log| ==> Depth(log[..i]) >= 0
  }

  lemma {:induction false} DepthConcat(a: seq<Command>, b: seq<Command>)
    ensures Depth(a + b) == Depth(a) + Depth(b)
    decreases |b|
  {
    if |b| > 0 {
      assert (a + b)[..|a + b| - 1] == a + b[..|b| - 1];
      DepthConcat(a, b[..|b| - 1]);
    } else {
      assert a + b == a;
    }
  }

  lemma BalancedConcat(a: seq<Command>, b: seq<Command>)
    requires Balanced(a) && Balanced(b)
    ensures Balanced(a + b)
  {
    DepthConcat(a, b);
    forall i | 0 <= i <= |a + b| ensures Depth((a + b)[..i]) >= 0 {
      if i <= |a| {
        assert (a + b)[..i] == a[..i];
      } else {
        assert (a + b)[..i] == a + b[..i - |a|];
        DepthConcat(a, b[..i - |a|]);
      }
    }
  }

  lemma BalancedScope(log: seq<Command>)
    requires Balanced(log)
    ensures Balanced([PushMatrix] + log + [PopMatrix])
  {
    var w := [PushMatrix] + log + [PopMatrix];
    DepthConcat([PushMatrix], log);
    DepthConcat([PushMatrix] + log, [PopMatrix]);
    assert Depth([PushMatrix]) == 1 by {
      assert [PushMatrix][..0] == [];
    }
    assert Depth([PopMatrix]) == -1 by {
      assert [PopMatrix][..0] == [];
    }
    forall i | 0 <= i <= |w| ensures Depth(w[..i]) >= 0 {
      if i == 0 {
      } else if i <= |log| + 1 {
        assert w[..i] == [PushMatrix] + log[..i - 1];
        DepthConcat([PushMatrix], log[..i - 1]);
      } else {
        assert w[..i] == w;
      }
    }
  }

  lemma BalancedDraw(id: Id)
    ensures Balanced([Draw(id)])
  {
    assert [Draw(id)][..0] == [];
    assert [Draw(id)][..1] == [Draw(id)];
  }

  /** Render leaves the transform depth where it found it, and never pops more than it pushed. */
  lemma {:induction false} RenderIsBalanced(e: Entity, pushes: Properties -> bool)
    ensures Balanced(RenderLog(e, pushes))
    decreases e, 1
  {
    var own: seq<Command> := if e.kind.Leaf? then [Draw(e.id)] else [];
    if e.kind.Leaf? {
      BalancedDraw(e.id);
    } else {
      assert Depth([]) == 0;
    }
    if e.hasChildren {
      RenderAllIsBalanced(e.children, pushes);
      var inner := RenderAll(e.children, pushes);
      if pushes(e.props) {
        BalancedScope(inner);
        assert own + [PushMatrix] + inner + [PopMatrix] == own + ([PushMatrix] + inner + [PopMatrix]);
        BalancedConcat(own, [PushMatrix] + inner + [PopMatrix]);
      } else {
        assert own + [] + inner + [] == own + inner;
        BalancedConcat(own, inner);
      }
    }
  }

  lemma {:induction false} RenderAllIsBalanced(cs: seq<Entity>, pushes: Properties -> bool)
    ensures Balanced(RenderAll(cs, pushes))
    decreases cs, 0
  {
    if |cs| > 0 {
      RenderAllIsBalanced(cs[..|cs| - 1], pushes);
      RenderIsBalanced(cs[|cs| - 1], pushes);
      BalancedConcat(RenderAll(cs[..|cs| - 1], pushes), RenderLog(cs[|cs| - 1], pushes));
    } else {
      assert Depth([]) == 0;
    }
  }
}
