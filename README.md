# Falling blocks — a verified model of the engine and game core

This project models, in Dafny, the core of a small falling-blocks game written in C#. It has two layers.

The **engine** (FallingBlocks.Engine.Core):
- **Behaviours.** A behaviour is a small state machine with a start time, a finished flag, a loop flag and a link to the next behaviour. Wait, callback, relative change, absolute animation, remove-from-parent and on-key behaviours are chained with `After` and made to repeat with `Loop`. The module `Behavior` gives one tick of a chain. `BehaviorProperties` proves completion timing and the result rule: done, no next node, and no loop.
- **Behaviour collections.** Each entity owns a set of chains. One tick updates every chain in order, then prunes the finished ones (`BehaviorCollection`).
- **Builders.** The `MemberChange` helpers (`ChangeOpacity`, `Move`, `Wait`, …) and the `Explode` effect build and attach behaviours.
- **Property access.** A getter/setter pair over floats and points, with `Scale`, `Sum` and `Difference` and the interpolation identities the animator depends on.
- **Render objects.** A tree of render objects with parent/root propagation on `Add`/`Remove`. `Update` runs motion, then behaviours, then children, then the timestamp. A single `AfterUpdate` slot defers removals until the whole traversal is done. `Render` keeps the transform push/pop balanced.
- **The scene graph's frame controller.** A real and a virtual clock, pause by Escape (with a 300 ms debounce) or by focus loss, game over and restart, and the game-over summary text.
- **Resources.** Lazy resources behind an idempotent `IsPrepared` gate.
- **Utilities.** `FloatEquals`, the point helpers and the Fisher–Yates `Shuffle`.

The **game** (FallingBlocks.Game):
- **Shapes and cubes.** The seven shape styles with their cube layouts, left and right rotation, and each one's exact inverse.
- **The field.** A 12 × 22 grid held in a two-dimensional array. Landed cubes are added to it, full rows are found, blinked and destroyed, and the rows above shift down in place.
- **The rules.** Level and interval arithmetic, the scoring table, move timing, the per-key debounce gates, the volume clamp and the seven-piece bag.
- **The scene (`FallingBlocksGame`).** Moving with clamping and collision, and rotation with wall kicks and rollback. The automatic move covers dropping, landing, line clearing and game over. It also holds the key dispatch, `Reset` and the ghost shape.

State that the C# code changes in place is modelled by Dafny classes and arrays, and pure computations by functions. Clocks, key state, focus, randomness and the rendering context are inputs.

## Model

| member | source | states |
|---|---|---|
| ListExtensions.Swap | FallingBlocks.Engine.Core/Util/ListExtensions.cs:17-19 | the swap through a temporary exchanges positions k and n and leaves every other position alone |
| ListExtensions.Shuffle | FallingBlocks.Engine.Core/Util/ListExtensions.cs:10-21 | the in-place Fisher–Yates loop: each pick k lies in 0..n for the n of its step, and the array ends as the swaps of those picks applied to its old contents |
| ListExtensions.SwapPermutes | FallingBlocks.Engine.Core/Util/ListExtensions.cs:17-19 | one swap keeps the multiset of elements |
| ListExtensions.ShuffleIsPermutation | FallingBlocks.Engine.Core/Util/ListExtensions.cs:10-21 | a shuffle is a permutation of the list: same length, same multiset |
| ListExtensions.ShortListUnchanged | FallingBlocks.Engine.Core/Util/ListExtensions.cs:13 | a list of 0 or 1 elements is left as it is (the loop never runs) |
| ListExtensions.ShuffleSuffixFixed | FallingBlocks.Engine.Core/Util/ListExtensions.cs:13-20 | after m steps the last m positions are final: later steps only swap below them |
| FloatHelper.FloatEqualsIsWithinTolerance | FallingBlocks.Engine.Core/Util/FloatHelper.cs:11-20 | FloatEquals holds exactly when the difference lies strictly inside (-0.0001, 0.0001), the sign flip being an absolute value |
| FloatHelper.FloatEqualsReflexive | FallingBlocks.Engine.Core/Util/FloatHelper.cs:11-20 | every value is FloatEquals to itself |
| FloatHelper.FloatEqualsSymmetric | FallingBlocks.Engine.Core/Util/FloatHelper.cs:11-20 | FloatEquals does not depend on argument order |
| FloatHelper.FloatEqualsOnIntegers | FallingBlocks.Engine.Core/Util/FloatHelper.cs:11-20 | on whole-number coordinates FloatEquals is plain equality, which lets the grid compare cells as integers |
| PointfExtensions.WrapInRange | FallingBlocks.Engine.Core/Util/PointfExtensions.cs:13-18 | Wrap(float): a value below the range re-enters at the maximum, one above it at the minimum, one inside is kept; with min <= max the result lies in the range |
| PointfExtensions.WrapPointInside | FallingBlocks.Engine.Core/Util/PointfExtensions.cs:25-30 | Wrap(PointF, RectangleF) wraps x between Left and Right and y between Top and Bottom, each on its own, so the point ends inside the rectangle |
| PointfExtensions.AddProperties | FallingBlocks.Engine.Core/Util/PointfExtensions.cs:61-72 | Add(p, x, y) is Add(p, (x, y)); Add is commutative with the origin as unit |
| PointfExtensions.MultiplyProperties | FallingBlocks.Engine.Core/Util/PointfExtensions.cs:53-56 | Multiply scales both components; factor 1 keeps the point and factor 0 gives the origin |
| PropertyAccess.Scale | FallingBlocks.Engine.Core/Core/Propertyaccess/PropertyAccess.cs:30 | Scale keeps the kind of the value (float or point) |
| PropertyAccess.Sum | FallingBlocks.Engine.Core/Core/Propertyaccess/PropertyAccess.cs:37 | Sum of two values of one kind is of that kind |
| PropertyAccess.Difference | FallingBlocks.Engine.Core/Core/Propertyaccess/PropertyAccess.cs:43-47 | the default Difference (v1 plus v2 scaled by -1) keeps the kind |
| PropertyAccess.DifferenceIsSubtraction | FallingBlocks.Engine.Core/Core/Propertyaccess/PropertyAccess.cs:43-47 | the default Difference is subtraction on floats and componentwise subtraction on points |
| PropertyAccess.Interpolate | FallingBlocks.Engine.Core/Core/Behavior/MemberAnimatorAbsolute.cs:56-65 | the start + (target - start) * factor the animator writes keeps the value's kind |
| PropertyAccess.InterpolationEndpoints | FallingBlocks.Engine.Core/Core/Behavior/MemberAnimatorAbsolute.cs:56-65 | that interpolation gives the start at factor 0 and the target at factor 1 |
| PropertyAccess.SumScaledByZero | FallingBlocks.Engine.Core/Core/Propertyaccess/PropertyAccess.cs:30-37 | adding a difference scaled by 0 leaves a value unchanged |
| PropertyAccess.SumRepeated | FallingBlocks.Engine.Core/Core/Behavior/MemberChangeRelative.cs:20-26 | adding a delta n times keeps the value's kind |
| PropertyAccess.SumRepeatedIsScaled | FallingBlocks.Engine.Core/Core/Behavior/MemberChangeRelative.cs:20-26 | adding a delta n times equals adding the delta scaled by n |
| PropertyAccess.GetValue | FallingBlocks.Engine.Core/Core/ARenderObject.cs:15-31 | each of the six accessors reads its own property: Position and Speed as points, the other four as floats |
| PropertyAccess.SetThenGet | FallingBlocks.Engine.Core/Core/ARenderObject.cs:15-31 | reading after a set returns the value set, and the five other properties are unchanged |
| PropertyAccess.SetOwnValue | FallingBlocks.Engine.Core/Core/Propertyaccess/PropertyAccess.cs:17-25 | writing back the value just read changes nothing |
| PropertyAccess.KindIsSharedWithinAccessor | FallingBlocks.Engine.Core/Core/ARenderObject.cs:15-31 | two values an accessor accepts are of one kind, so its Sum and Difference apply |
| PropertyAccessPointF.ComponentsIndependent | FallingBlocks.Engine.Core/Core/Propertyaccess/PropertyAccessPointF.cs:17-26 | point Scale and Sum work componentwise: each output component depends only on the same component of the inputs |
| EffectsChanger.Explode | FallingBlocks.Engine.Core/Effects/EffectsChanger.cs:13-19 | Explode appends one chain (fade opacity to 0 over 1000 ms, then RemoveFromParent) and one particle child to the object, and keeps its id, parent, root and other children |
| EffectsChanger.ExplodeKeepsValid | FallingBlocks.Engine.Core/Effects/EffectsChanger.cs:13-19 | Explode keeps the tree invariant and adds exactly the particle id when that id is new |
| EffectsChanger.FadeThenRemove | FallingBlocks.Engine.Core/Effects/EffectsChanger.cs:15-16 | the removal is scheduled on the tick after the one on which the fade finishes |
| EffectsChanger.FadeOutChainIsValid | FallingBlocks.Engine.Core/Effects/EffectsChanger.cs:15-16 | the chain Explode attaches is well formed and starts unfinished with RemoveFromParent second |
| Behavior.RelativeProgress | FallingBlocks.Engine.Core/Core/ABehavior.cs:96-112 | elapsed / maximum duration capped at 1: it is 1 exactly when the elapsed time reaches the maximum, otherwise it is the exact ratio, and it is negative exactly when the timestamp precedes StartTime (no lower clamp) |
| Behavior.After | FallingBlocks.Engine.Core/Core/ABehavior.cs:22-31 | After(b) keeps the node and its predecessors and makes b's nodes follow it; After(null) ends the chain there |
| Behavior.Loop | FallingBlocks.Engine.Core/Core/ABehavior.cs:33-37 | Loop sets the loop flag of that node and changes nothing else |
| Behavior.ResetNode | FallingBlocks.Engine.Core/Core/ABehavior.cs:49-52 | resetting a node keeps it well formed |
| Behavior.Reset | FallingBlocks.Engine.Core/Core/ABehavior.cs:49-57 | Reset clears StartTime and Finished on the node and on every node after it, and leaves its predecessors alone |
| Behavior.OnStart | FallingBlocks.Engine.Core/Core/ABehavior.cs:59-62 | OnStart records the timestamp as StartTime; an absolute animator also snapshots its property's current value (MemberAnimatorAbsolute.cs:50-54) |
| Behavior.Started | FallingBlocks.Engine.Core/Core/ABehavior.cs:74-77 | a node is started only when its StartTime is 0 and AutoStart is set; the flags are kept |
| Behavior.StepAt | FallingBlocks.Engine.Core/Core/Events/OnEvent.cs:25-38 | one UpdateOjectInternal call after the due OnStart; an OnEvent node never reports done and ticks its wrapped behaviour only while its key is pressed; Finished and the flags are not touched here |
| Behavior.Complete | FallingBlocks.Engine.Core/Core/ABehavior.cs:79-90 | on completion StartTime is cleared and Finished set, a looping last node resets the chain from its root, and the result is done only for a completed last node that does not loop |
| Behavior.UpdateObject | FallingBlocks.Engine.Core/Core/ABehavior.cs:67-91 | a finished node with a successor hands the tick on; the chain reports done only when its last, non-looping node completes, and then that node is Finished; earlier nodes are untouched or all reset |
| BehaviorProperties.DelegatesPastFinished | FallingBlocks.Engine.Core/Core/ABehavior.cs:69-72 | a finished node with a successor returns exactly the successor's result and is itself untouched or reset |
| BehaviorProperties.StartsOnlyWhenDue | FallingBlocks.Engine.Core/Core/ABehavior.cs:74-77 | OnStart records the timestamp exactly when StartTime is 0 and AutoStart is set; otherwise StartTime is kept |
| BehaviorProperties.CompletionBookkeeping | FallingBlocks.Engine.Core/Core/ABehavior.cs:79-90 | an unfinished step only updates the node; a completed one clears StartTime and sets Finished, a completed looping tail resets the whole chain from its root; the result is done exactly for a completed, non-looping tail |
| BehaviorProperties.DoneOnlyWhenNonLoopingTailCompletes | FallingBlocks.Engine.Core/Core/ABehavior.cs:84-90 | a chain whose tail loops never reports done; a done chain's last node completed on this tick |
| BehaviorProperties.WaitStep | FallingBlocks.Engine.Core/Core/Behavior/WaitBehavior.cs:16-19 | Wait is done exactly when its duration is strictly less than the elapsed time, and writes nothing |
| BehaviorProperties.WaitNotDoneOnStartTick | FallingBlocks.Engine.Core/Core/Behavior/WaitBehavior.cs:16-19 | on its start tick a non-negative Wait is not done, since the elapsed time is 0 |
| BehaviorProperties.WaitFiveHundredStartedAtThousand | FallingBlocks.Engine.Core/Core/Behavior/WaitBehavior.cs:16-19 | Wait(500) started at 1000 is done exactly from timestamp 1501 on |
| BehaviorProperties.CallbackStep | FallingBlocks.Engine.Core/Core/Behavior/CallbackBehaviour.cs:21-25 | a callback tick invokes the callback once and is done |
| BehaviorProperties.CallbackRunsOnceBeforeSuccessor | FallingBlocks.Engine.Core/Core/ABehavior.cs:69-83 | a callback with a successor runs on one tick only; on later ticks the chain delegates past it |
| BehaviorProperties.LoneCallbackIsDone | FallingBlocks.Engine.Core/Core/ABehavior.cs:90 | a lone non-looping callback chain reports done after its tick |
| BehaviorProperties.Ticks | FallingBlocks.Engine.Core/Core/ABehavior.cs:67-91 | n successive ticks keep the chain's length and well-formedness |
| BehaviorProperties.LoopingCallbackRunsEveryTick | FallingBlocks.Engine.Core/Core/ABehavior.cs:84-87 | a looping lone callback runs on every tick and is reset to its initial state each time; it is never done |
| BehaviorProperties.ChangeRelativeStep | FallingBlocks.Engine.Core/Core/Behavior/MemberChangeRelative.cs:20-26 | a relative change sets its property to current + delta, touches no other property and no schedule, and is done |
| BehaviorProperties.LoopingChangeRelativeAccumulates | FallingBlocks.Engine.Core/Core/Behavior/MemberChangeRelative.cs:20-26 | as a looping lone chain, n ticks add delta n times, which is delta scaled by n |
| BehaviorProperties.AnimateStep | FallingBlocks.Engine.Core/Core/Behavior/MemberAnimatorAbsolute.cs:50-69 | OnStart snapshots the property; each tick writes start + (target - start) * eased(p) with p = min(elapsed / duration, 1), and is done exactly when eased(p) >= 1 |
| BehaviorProperties.AnimateWritesOnlyItsProperty | FallingBlocks.Engine.Core/Core/Behavior/MemberAnimatorAbsolute.cs:65 | the animator writes only its own property |
| BehaviorProperties.AnimateStartTickKeepsValue | FallingBlocks.Engine.Core/Core/Behavior/MemberAnimatorAbsolute.cs:50-69 | on the start tick, with eased(0) = 0, the property is rewritten with its own value and the animator is not done |
| BehaviorProperties.AnimateReachesTarget | FallingBlocks.Engine.Core/Core/Behavior/MemberAnimatorAbsolute.cs:56-69 | once the elapsed time reaches the duration, with eased(1) = 1, the tick is done and the property is at the target |
| BehaviorProperties.AnimateDoneOnlyAtTarget | FallingBlocks.Engine.Core/Core/Behavior/MemberAnimatorAbsolute.cs:56-69 | with an easing bounded by 1, the animator is done only with the property at the target |
| BehaviorProperties.RemoveFromParentStep | FallingBlocks.Engine.Core/Core/Behavior/RemoveFromParent.cs:11-19 | the tick appends "remove this object from its parent" to the AfterUpdate actions, after the earlier ones, and is done |
| BehaviorProperties.OnEventNeverDone | FallingBlocks.Engine.Core/Core/Events/OnEvent.cs:25-38 | an OnEvent step is never done, so a chain ending in one never reports done |
| BehaviorProperties.OnEventIdle | FallingBlocks.Engine.Core/Core/Events/OnEvent.cs:27-37 | without its key pressed, or without a wrapped behaviour, an OnEvent step has no effect |
| BehaviorProperties.OnEventTicksWrapped | FallingBlocks.Engine.Core/Core/Events/OnEvent.cs:27-34 | with its key pressed, the wrapped behaviour is ticked once and its result is ignored |
| BehaviorCollection.TickChains | FallingBlocks.Engine.Core/Core/BehaviorCollection.cs:17-28 | the foreach ticks every chain once, in list order, each seeing the effects of those before it, and keeps every chain non-empty and well formed |
| BehaviorCollection.Survivors | FallingBlocks.Engine.Core/Core/BehaviorCollection.cs:30-33 | the chains left after the removal are drawn from the list, never more of them |
| BehaviorCollection.UpdateInternal | FallingBlocks.Engine.Core/Core/BehaviorCollection.cs:14-36 | tick all, prune the done ones, and report true exactly when the list is now empty |
| BehaviorCollection.UpdateSet | FallingBlocks.Engine.Core/Core/ABehavior.cs:67-91 | the collection's inherited UpdateObject (no successor, no loop) reports done exactly when its list is empty |
| BehaviorCollection.TickChainsPrefix | FallingBlocks.Engine.Core/Core/BehaviorCollection.cs:17-28 | ticking a prefix of the list gives a prefix of the outcome: later chains do not affect earlier ones |
| BehaviorCollection.TickChainsEach | FallingBlocks.Engine.Core/Core/BehaviorCollection.cs:17-19 | chain j's new state and result are those of one UpdateObject on it, after chains 0..j-1 |
| BehaviorCollection.SurvivorsAreNotDone | FallingBlocks.Engine.Core/Core/BehaviorCollection.cs:19-33 | exactly the chains that did not report done survive: none done keeps the list, all done empties it |
| BehaviorCollection.EmptySetReportsDone | FallingBlocks.Engine.Core/Core/BehaviorCollection.cs:35 | an empty collection ticks nothing, changes nothing and reports true |
| BehaviorCollection.FinishedSetStillTicks | FallingBlocks.Engine.Core/Core/ABehavior.cs:69-79 | Finished never stops the collection (it has no successor), so chains added after it reported empty are still ticked |
| BehaviorCollection.BehaviorCollectionObject.constructor | FallingBlocks.Engine.Core/Core/BehaviorCollection.cs:9-12 | a new collection is not started, not finished and empty |
| BehaviorCollection.BehaviorCollectionObject.AddBehavior | FallingBlocks.Engine.Core/Core/ARenderObject.cs:132-136 | AddBehavior appends the chain root to the list and changes nothing else |
| BehaviorCollection.BehaviorCollectionObject.UpdateOjectInternal | FallingBlocks.Engine.Core/Core/BehaviorCollection.cs:14-36 | the two loops leave the list, result and effects UpdateInternal specifies |
| BehaviorCollection.BehaviorCollectionObject.RemoveCollected | FallingBlocks.Engine.Core/Core/BehaviorCollection.cs:30-33 | removing each collected chain leaves exactly the survivors, in order |
| BehaviorCollection.BehaviorCollectionObject.UpdateObject | FallingBlocks.Engine.Core/Core/ABehavior.cs:67-91 | the inherited UpdateObject on the collection's fields matches UpdateSet |
| BehaviorCollection.TickAndCollect | FallingBlocks.Engine.Core/Core/BehaviorCollection.cs:16-28 | the foreach loop produces TickChains' states and effects, and collects, in increasing order, exactly the positions whose tick reported done |
| BehaviorCollection.TickPrefixStep | FallingBlocks.Engine.Core/Core/BehaviorCollection.cs:17-19 | one more turn of the foreach extends the outcome by that chain's tick |
| BehaviorCollection.CollectedStep | FallingBlocks.Engine.Core/Core/BehaviorCollection.cs:19-27 | recording position i exactly when its tick is done keeps the collected list exact and increasing |
| BehaviorCollection.RemovePositions | FallingBlocks.Engine.Core/Core/BehaviorCollection.cs:32 | the removal loop, deleting the j-th collected chain at its position shifted by j, leaves exactly the survivors |
| BehaviorCollection.RemoveAt | FallingBlocks.Engine.Core/Core/BehaviorCollection.cs:32 | removing one element shortens the list by one |
| BehaviorCollection.RemoveNext | FallingBlocks.Engine.Core/Core/BehaviorCollection.cs:32 | each turn of the removal loop removes the next collected chain and nothing else |
| BehaviorCollection.RemoveFinish | FallingBlocks.Engine.Core/Core/BehaviorCollection.cs:32 | after the last removal only the survivors are left |
| BehaviorCollection.SegmentWithoutRemovals | FallingBlocks.Engine.Core/Core/BehaviorCollection.cs:30-33 | a run of chains that all survive stays in the list unchanged and in order |
| MemberChange.AttachAt | FallingBlocks.Engine.Core/Core/ABehavior.cs:114-118 | AddBehavior on a behaviour makes the new one its next node (After); on an OnEvent node the override at OnEvent.cs:18-22 replaces the wrapped behaviour and leaves the next link alone; the result addresses the attached behaviour and nodes before it are kept |
| MemberChange.AddBehavior | FallingBlocks.Engine.Core/Core/ARenderObject.cs:132-136 | on a render object the behaviour becomes a new chain root at the end of its set; on a behaviour it is attached as AttachAt says and every other chain is kept; the attached behaviour is returned |
| MemberChange.LoopAt | FallingBlocks.Engine.Core/Core/ABehavior.cs:33-37 | Loop sets the loop flag of the addressed behaviour only |
| MemberChange.LoopReceiver | FallingBlocks.Engine.Core/Core/ARenderObject.cs:222-225 | Loop on a render object fails (NotImplementedException); on a behaviour it sets that behaviour's loop flag and changes no other chain |
| MemberChange.DefaultValue | FallingBlocks.Engine.Core/Core/Behavior/MemberAnimatorAbsolute.cs:15 | the start value an animator holds before OnStart is of its accessor's kind |
| MemberChange.Change | FallingBlocks.Engine.Core/Core/Behavior/MemberChange.cs:11-15 | Change builds a fresh absolute animator over the accessor with that target and duration |
| MemberChange.ChangeRelativeDirect | FallingBlocks.Engine.Core/Core/Behavior/MemberChange.cs:17-21 | ChangeRelativeDirect builds a fresh relative change over the accessor with that delta |
| MemberChange.ChangeOpacity | FallingBlocks.Engine.Core/Core/Behavior/MemberChange.cs:26-29 | attaches an opacity animator to the receiver and returns it |
| MemberChange.ChangeScale | FallingBlocks.Engine.Core/Core/Behavior/MemberChange.cs:34-37 | attaches a scale animator to the receiver and returns it |
| MemberChange.ChangeRotation | FallingBlocks.Engine.Core/Core/Behavior/MemberChange.cs:42-46 | attaches a rotation animator to the receiver and returns it |
| MemberChange.Move | FallingBlocks.Engine.Core/Core/Behavior/MemberChange.cs:51-54 | attaches a relative position change by deltaPos and returns it |
| MemberChange.ChangeSpeedRelative | FallingBlocks.Engine.Core/Core/Behavior/MemberChange.cs:59-62 | attaches a relative speed change and returns it |
| MemberChange.Wait | FallingBlocks.Engine.Core/Core/Behavior/MemberChange.cs:68-71 | attaches a fresh WaitBehavior with that duration and returns it |
| MemberChange.ChangeRotationSpeed | FallingBlocks.Engine.Core/Core/Behavior/MemberChange.cs:76-80 | attaches a rotation-speed animator and returns it |
| MemberChange.ChangeSpeed | FallingBlocks.Engine.Core/Core/Behavior/MemberChange.cs:85-88 | attaches a speed animator and returns it |
| MemberChange.ChangePosition | FallingBlocks.Engine.Core/Core/Behavior/MemberChange.cs:94-97 | attaches a position animator and returns it |
| MemberChange.On | FallingBlocks.Engine.Core/Core/Events/EventHandling.cs:7-10 | attaches a fresh OnEvent for the key, wrapping nothing yet, and returns it |
| MemberChange.FluentCallsBuildOneChain | FallingBlocks.Engine.Core/Core/ABehavior.cs:114-118 | two fluent calls from a render object build one chain whose second node is the first's next |
| MemberChange.OnWrapsTheNextCall | FallingBlocks.Engine.Core/Core/Events/OnEvent.cs:18-22 | On(key) followed by a fluent call wraps that behaviour inside the OnEvent, which keeps no next node |
| MemberChange.AttachedOnObjectIsNewRoot | FallingBlocks.Engine.Core/Core/ARenderObject.cs:132-136 | a behaviour added on a render object starts a new chain and leaves the existing chains as they were |
| RenderObject.NewEntity | FallingBlocks.Engine.Core/Core/ARenderObject.cs:125-130 | a new object has Scale and Opacity 1, an empty behaviour set, no child list, no Parent and no Root, and satisfies the tree invariant |
| RenderObject.SetRootProperties | FallingBlocks.Engine.Core/Core/ARenderObject.cs:44-54 | setting Root stores it on the object and, when the list exists, on every object below; ids, Parent, flags, properties and behaviours are kept and the tree invariant is preserved |
| RenderObject.Add | FallingBlocks.Engine.Core/Core/ARenderObject.cs:183-199 | Add appends the child (creating the list if needed), sets hasChildren and the child's Parent, gives the child's whole subtree this object's Root, and returns the child |
| RenderObject.AddKeepsValid | FallingBlocks.Engine.Core/Core/ARenderObject.cs:183-199 | adding a subtree with ids new to the tree keeps the tree invariant, and the tree's ids become the union |
| RenderObject.FirstWithId | FallingBlocks.Engine.Core/Core/ARenderObject.cs:208 | the position List.Remove finds is the first child with that id |
| RenderObject.DropAt | FallingBlocks.Engine.Core/Core/ARenderObject.cs:208 | dropping position k shifts the later children down by one and keeps the earlier ones |
| RenderObject.RemoveFirst | FallingBlocks.Engine.Core/Core/ARenderObject.cs:208 | List.Remove drops the first child with the id, and leaves the list alone when there is none |
| RenderObject.DropAtIds | FallingBlocks.Engine.Core/Core/ARenderObject.cs:208 | dropping a child of disjoint subtrees removes exactly that subtree's ids |
| RenderObject.Remove | FallingBlocks.Engine.Core/Core/ARenderObject.cs:204-216 | without a list Remove does nothing; otherwise the child leaves the list, its Parent and its subtree's Root become null, and hasChildren is cleared when the list becomes empty |
| RenderObject.RemoveChildKeepsValid | FallingBlocks.Engine.Core/Core/ARenderObject.cs:204-216 | removing child k keeps the tree invariant and removes exactly that child's subtree |
| RenderObject.RemoveKeepsValid | FallingBlocks.Engine.Core/Core/ARenderObject.cs:204-216 | Remove with any argument keeps the tree invariant and adds no object; an argument that is not a child changes nothing |
| RenderObject.RemoveFromTreeProperties | FallingBlocks.Engine.Core/Core/Behavior/RemoveFromParent.cs:15 | the scheduled "remove from parent" action removes the object from wherever it is listed, keeps the tree invariant and the root object, and changes nothing when the object is gone already |
| RenderObject.RunRemovalsProperties | FallingBlocks.Engine.Core/Core/RenderObjectCollection.cs:40-44 | running the AfterUpdate removals in order keeps the tree invariant and leaves none of the removed objects in the tree |
| RenderObject.RotationStep | FallingBlocks.Engine.Core/Core/ARenderObject.cs:150-154 | the rotation advances by speed times elapsed seconds, and 360 is subtracted once, only from a result above 360 |
| RenderObject.Motion | FallingBlocks.Engine.Core/Core/ARenderObject.cs:145-164 | nothing moves on the first update; afterwards the rotation moves when the rotation speed is not FloatEquals 0 and the position moves by speed times elapsed seconds when either speed component is not FloatEquals 0; speed, scale and opacity are kept |
| RenderObject.RotationStaysInRange | FallingBlocks.Engine.Core/Core/ARenderObject.cs:150-154 | an angle in [0, 360] turned forwards by at most a full turn stays in [0, 360] |
| RenderObject.NegativeRotationNotWrapped | FallingBlocks.Engine.Core/Core/ARenderObject.cs:151-154 | angles that go negative are never wrapped back |
| RenderObject.MotionAdds | FallingBlocks.Engine.Core/Core/ARenderObject.cs:157-163 | with a constant non-zero speed, two updates move the object as far as one update over the total time |
| RenderObject.UpdateSelf | FallingBlocks.Engine.Core/Core/ARenderObject.cs:142-166 | the object's own part of Update (motion, then its behaviour set) keeps its ids, links and children and stamps the timestamp |
| RenderObject.UpdateEntity | FallingBlocks.Engine.Core/Core/ARenderObject.cs:142-178 | Update keeps the tree's shape (ids, links, flags) and leaves every object stamped with the timestamp |
| RenderObject.UpdateChildren | FallingBlocks.Engine.Core/Core/ARenderObject.cs:169-175 | the children's foreach keeps each child's shape and stamps each of them |
| RenderObject.UpdateChildrenStep | FallingBlocks.Engine.Core/Core/ARenderObject.cs:171-174 | one more turn of the foreach extends the result by that child's update |
| RenderObject.Update | FallingBlocks.Engine.Core/Core/ARenderObject.cs:142-178 | the method with its foreach computes exactly UpdateEntity |
| RenderObject.UpdateEach | FallingBlocks.Engine.Core/Core/ARenderObject.cs:169-175 | the foreach over the children computes exactly UpdateChildren |
| RenderObject.WithoutBehaviorsOnlyMotion | FallingBlocks.Engine.Core/Core/ARenderObject.cs:142-166 | an object without behaviours only moves, and a childless one schedules and invokes nothing |
| RenderObject.Render | FallingBlocks.Engine.Core/Core/ARenderObject.cs:228-247 | the method with its foreach issues exactly RenderLog: the object's own drawing, then with children a Transform, the children in order, and PopMatrix exactly when Transform returned true |
| RenderObject.DepthConcat | FallingBlocks.Engine.Core/Core/ARenderObject.cs:236-245 | the transform depth of two command runs adds up |
| RenderObject.BalancedConcat | FallingBlocks.Engine.Core/Core/ARenderObject.cs:237-240 | two balanced command runs in a row are balanced |
| RenderObject.BalancedScope | FallingBlocks.Engine.Core/Core/ARenderObject.cs:236-245 | a balanced run between a push and a pop is balanced |
| RenderObject.RenderIsBalanced | FallingBlocks.Engine.Core/Core/ARenderObject.cs:228-247 | Render never pops more than it pushed and leaves the transform depth where it found it |
| RenderObject.RenderAllIsBalanced | FallingBlocks.Engine.Core/Core/ARenderObject.cs:237-240 | rendering the children in order is balanced |
| RenderObjectCollection.EmptyCollection | FallingBlocks.Engine.Core/Core/RenderObjectCollection.cs:22-24 | the parameterless constructor gives a valid collection without children |
| RenderObjectCollection.CollectionWith | FallingBlocks.Engine.Core/Core/RenderObjectCollection.cs:29-32 | the params constructor stores the objects in the collection's private list, not among its children |
| RenderObjectCollection.ParamsObjectsNeverVisited | FallingBlocks.Engine.Core/Core/RenderObjectCollection.cs:11-32 | objects given to the params constructor are neither updated nor rendered: the base class only visits its own children |
| RenderObjectCollection.UpdateCollection | FallingBlocks.Engine.Core/Core/RenderObjectCollection.cs:37-45 | after the update the AfterUpdate slot is empty |
| RenderObjectCollection.SkeletonKeepsValid | FallingBlocks.Engine.Core/Core/RenderObjectCollection.cs:39 | a tree with the same shape has the same ids and the same uniqueness |
| RenderObjectCollection.UpdateCollectionRemovesScheduled | FallingBlocks.Engine.Core/Core/RenderObjectCollection.cs:37-45 | the scheduled removals run once, only after the whole subtree was updated without changing its shape; afterwards every object they name (other than the collection) has left the tree, the tree is valid and no object was added |
| RenderObjectCollection.NothingScheduledNothingRemoved | FallingBlocks.Engine.Core/Core/RenderObjectCollection.cs:40-44 | with no action scheduled, an update removes nothing |
| Resource.RenderContext.PrepareImageResource | FallingBlocks.Engine.Core/Core/IRenderContext.cs:21 | the render context records each image it is asked to prepare, in order |
| Resource.ImageResource.constructor | FallingBlocks.Engine.Core/Core/Resource/ImageResource.cs:27-30 | a new image holds its bitmap and is not prepared |
| Resource.ImageResource.Prepare | FallingBlocks.Engine.Core/Core/Resource/ImageResource.cs:33-40 | the first call hands the image to the context and sets IsPrepared; later calls do nothing |
| Resource.NothingDueWhenAllPrepared | FallingBlocks.Engine.Core/Core/Resource/ResourceCollection.cs:33-42 | once every resource is prepared, a pass hands nothing to the context |
| Resource.Removed | FallingBlocks.Engine.Core/Core/Resource/ResourceCollection.cs:25 | List.Remove drops one occurrence when there is one and otherwise leaves the list alone |
| Resource.ResourceCollection.constructor | FallingBlocks.Engine.Core/Core/Resource/ResourceCollection.cs:7 | a new collection is empty and not prepared |
| Resource.ResourceCollection.Add | FallingBlocks.Engine.Core/Core/Resource/ResourceCollection.cs:13-18 | Add appends, clears the collection's IsPrepared, and returns the same resource |
| Resource.ResourceCollection.Remove | FallingBlocks.Engine.Core/Core/Resource/ResourceCollection.cs:23-27 | Remove drops the first occurrence, keeps the flag, and returns the same resource |
| Resource.ResourceCollection.Prepare | FallingBlocks.Engine.Core/Core/Resource/ResourceCollection.cs:33-42 | the foreach prepares each resource met unprepared, in list order, leaves every resource prepared, and never sets the collection's own flag |
| SceneGraph.EscapeGate | FallingBlocks.Engine.Core/Core/ASceneGraph.cs:234-251 | IsEscapePressed accepts exactly when Escape is pressed and the time has reached nextAcceptTime_Escape, then re-arms it 300 ms later; a release resets it to 0; a held-back press keeps it |
| SceneGraph.HeldEscapeIsDebounced | FallingBlocks.Engine.Core/Core/ASceneGraph.cs:234-251 | holding Escape is accepted at most once per 300 ms |
| SceneGraph.ReleaseRearmsEscape | FallingBlocks.Engine.Core/Core/ASceneGraph.cs:245-248 | a frame without Escape re-arms the gate, so the next press is accepted at once |
| SceneGraph.OverlayFor | FallingBlocks.Engine.Core/Core/ASceneGraph.cs:163-172 | the game-over overlay is drawn exactly in game over, the pause overlay exactly when paused and not in game over |
| SceneGraph.CalcPause | FallingBlocks.Engine.Core/Core/ASceneGraph.cs:219-232 | an accepted Escape toggles the Escape pause, the focus pause is the lack of focus, and the frame is paused when either is set |
| SceneGraph.FrameRecordsRealTime | FallingBlocks.Engine.Core/Core/ASceneGraph.cs:120-123 | every frame records the real timestamp, whatever the state |
| SceneGraph.VirtualTimeAdvancesOnlyWhileRunning | FallingBlocks.Engine.Core/Core/ASceneGraph.cs:125-149 | the virtual time grows by exactly the real time elapsed on frames that are neither paused nor in game over, and stands still otherwise; only those frames update the tree |
| SceneGraph.RestartOnlyFromGameOver | FallingBlocks.Engine.Core/Core/ASceneGraph.cs:126-133 | a frame restarts exactly when it is in game over and the Escape gate accepts; the game-over flag is then cleared, and a running frame never sets it on its own |
| SceneGraph.GameOverFreezesPause | FallingBlocks.Engine.Core/Core/ASceneGraph.cs:126-138 | in game over the pause flags are not evaluated and keep their values |
| SceneGraph.FocusLossPauses | FallingBlocks.Engine.Core/Core/ASceneGraph.cs:228-231 | losing focus pauses a running game whatever Escape did |
| SceneGraph.NatToString | FallingBlocks.Engine.Core/Core/ASceneGraph.cs:277 | the decimal form of a natural number is a non-empty run of digits |
| SceneGraph.IntToString | FallingBlocks.Engine.Core/Core/ASceneGraph.cs:277 | Int32.ToString gives a leading minus sign exactly for negative values |
| SceneGraph.Spaces | FallingBlocks.Engine.Core/Core/ASceneGraph.cs:276 | new string(' ', n) is n spaces |
| SceneGraph.MaxKeyLength | FallingBlocks.Engine.Core/Core/ASceneGraph.cs:272 | the widest key is at least as long as every key and is the length of one of them |
| SceneGraph.GameOverText | FallingBlocks.Engine.Core/Core/ASceneGraph.cs:253-281 | GameOver's text fails (a repeated dictionary key) exactly when an extra statistic reuses "Reached Level" or "Earned Points"; otherwise it starts with the restart header |
| SceneGraph.StatisticsDistinct | FallingBlocks.Engine.Core/Core/ASceneGraph.cs:260-270 | the statistics dictionary has no repeated key exactly when no extra statistic reuses a fixed key |
| SceneGraph.ClashRepeatsKey | FallingBlocks.Engine.Core/Core/ASceneGraph.cs:261-268 | an extra statistic under a fixed key repeats that key in the dictionary |
| SceneGraph.NoClashDistinct | FallingBlocks.Engine.Core/Core/ASceneGraph.cs:260-270 | extras with keys of their own, none of them fixed, give a dictionary without a repeated key |
| SceneGraph.ValuesStartAtCommonColumn | FallingBlocks.Engine.Core/Core/ASceneGraph.cs:274-278 | every value starts in the same column, two past the widest key: key, ": ", padding, then the value and a line break |
| SceneGraph.WidthCoversFixedKeys | FallingBlocks.Engine.Core/Core/ASceneGraph.cs:261-272 | the widest key is at least as long as "Reached Level" (13 characters) |
| SceneGraph.StatLinesSnoc | FallingBlocks.Engine.Core/Core/ASceneGraph.cs:274-278 | one more turn of the foreach appends that statistic's line |
| SceneGraph.BuildGameOverText | FallingBlocks.Engine.Core/Core/ASceneGraph.cs:257-280 | the StringBuilder loop produces the header followed by one padded line per statistic, in order |
| SceneGraph.SceneGraph.constructor | FallingBlocks.Engine.Core/Core/ASceneGraph.cs:56-64 | a new scene graph has an empty top collection rooted at it, the game-over and pause images as its only (unprepared) resources, and a zero clock |
| SceneGraph.SceneGraph.AddObject | FallingBlocks.Engine.Core/Core/ASceneGraph.cs:103-107 | AddObject adds the object to the top collection, which gives it this Root, and keeps the tree valid |
| SceneGraph.SceneGraph.RemoveObject | FallingBlocks.Engine.Core/Core/ASceneGraph.cs:109-113 | RemoveObject removes the object from the top collection and keeps the tree valid |
| SceneGraph.SceneGraph.AddResource | FallingBlocks.Engine.Core/Core/ASceneGraph.cs:91-95 | AddResource appends to the resource collection and clears its prepared flag |
| SceneGraph.SceneGraph.RemoveResource | FallingBlocks.Engine.Core/Core/ASceneGraph.cs:97-101 | RemoveResource drops the first occurrence and keeps the flag |
| SceneGraph.SceneGraph.IsEscapePressed | FallingBlocks.Engine.Core/Core/ASceneGraph.cs:234-251 | the method leaves the result and nextAcceptTime_Escape EscapeGate specifies |
| SceneGraph.SceneGraph.CalcPauseState | FallingBlocks.Engine.Core/Core/ASceneGraph.cs:219-232 | the method leaves the pause flags and result CalcPause specifies |
| SceneGraph.SceneGraph.ResetGameOver | FallingBlocks.Engine.Core/Core/ASceneGraph.cs:283-287 | ResetGameOver clears the flag and the text |
| SceneGraph.SceneGraph.GameOver | FallingBlocks.Engine.Core/Core/ASceneGraph.cs:253-281 | GameOver sets the game-over flag and stores the text GameOverText builds; with a repeated key it reports the dictionary's error and keeps the old text |
| SceneGraph.SceneGraph.AdvanceClock | FallingBlocks.Engine.Core/Core/ASceneGraph.cs:118-138 | the clock part of a frame: records the time, restarts (and calls Init) from game over on an accepted Escape, otherwise evaluates the pause, as ClockStep says |
| SceneGraph.HookError | FallingBlocks.Engine.Core/Core/ASceneGraph.cs:261-268 | the hook's GameOver call throws exactly when its statistics clash with a fixed key |
| SceneGraph.SceneGraph.RunHook | FallingBlocks.Engine.Core/Core/ASceneGraph.cs:144-145 | the subclass hook is called with the virtual timestamp and the elapsed time, may end the game through GameOver, and hands on GameOver's exception |
| SceneGraph.SceneGraph.UpdateObjects | FallingBlocks.Engine.Core/Core/ASceneGraph.cs:147-148 | the tree's update at the virtual time, followed by the AfterUpdate removals, keeps the tree valid and rooted here |
| SceneGraph.SceneGraph.StepFrame | FallingBlocks.Engine.Core/Core/ASceneGraph.cs:118-149 | the update part of RenderOneFrame: the clock, then on a running frame the hook and the tree's update; an exception from the hook skips the update, and a restart touches neither |
| SceneGraph.SceneGraph.RunningFrame | FallingBlocks.Engine.Core/Core/ASceneGraph.cs:140-149 | a running frame calls the hook, then updates the tree unless the hook threw |
| SceneGraph.SceneGraph.DrawFrame | FallingBlocks.Engine.Core/Core/ASceneGraph.cs:151-174 | drawing prepares every resource not prepared yet, renders the tree, and picks the overlay from the flags as they are after the update |
| SceneGraph.SceneGraph.RenderOneFrame | FallingBlocks.Engine.Core/Core/ASceneGraph.cs:118-175 | one whole frame: a restart draws nothing, and neither does a frame whose hook threw; otherwise the tree is updated when running and drawn, and a frame whose hook ends the game already shows the game-over overlay |
| GameParameters.GeometryValues | FallingBlocks.Game/Scene/FallingBlocksGameScene.cs:62-65 | each level-up shortens the interval by (1000 - 100) / 10 = 90 ms, and the field's left and top edges (lines 156-159, with C#'s truncating division) are -176 and -320 pixels |
| GameRules.LevelFor | FallingBlocks.Game/Scene/FallingBlocksGameScene.cs:318-319 | the level is StartLevel plus the number of whole groups of LinesNeededForLevelup cleared lines: never below StartLevel, and the cleared lines lie within the level's group |
| GameRules.IntervalFor | FallingBlocks.Game/Scene/FallingBlocksGameScene.cs:320-322 | the move interval is StartInterval less SpeedupPerLevelup per level-up, kept between MinInterval and StartInterval |
| GameRules.IntervalNeverIncreases | FallingBlocks.Game/Scene/FallingBlocksGameScene.cs:318-322 | clearing more lines never lowers the level and never lengthens the interval |
| GameRules.LevelupsMonotone | FallingBlocks.Game/Scene/FallingBlocksGameScene.cs:318-320 | the number of level-ups grows with the cleared lines |
| GameRules.IntervalBottomsOut | FallingBlocks.Game/Scene/FallingBlocksGameScene.cs:320-322 | the interval is the minimum, 100 ms, exactly from 50 cleared lines on |
| GameRules.PointsForLines | FallingBlocks.Game/Scene/FallingBlocksGameScene.cs:1081-1087 | clearing n lines at once pays a positive amount per level exactly when n is 1 to 4 |
| GameRules.PointsGrowWithLines | FallingBlocks.Game/Scene/FallingBlocksGameScene.cs:1081-1087 | clearing one more line at once (up to four) pays strictly more |
| GameRules.TetrisPaysMost | FallingBlocks.Game/Scene/FallingBlocksGameScene.cs:1081-1088 | at any level, four lines at once pay more than four single lines, three plus one, or two plus two |
| GameRules.NextMoveDelay | FallingBlocks.Game/Scene/FallingBlocksGameScene.cs:513-531 | the delay to the next automatic step: the drop interval while dropping, else the down interval while the shape is down, else the blink interval in destroy mode, else the level interval |
| GameRules.NextMoveIsAhead | FallingBlocks.Game/Scene/FallingBlocksGameScene.cs:513-531 | at every level the next step is between DropShapeInterval and StartInterval ms ahead, and at the drop interval exactly while dropping |
| GameRules.DownOutlastsKeyRepeat | FallingBlocks.Game/Scene/FallingBlocksGameScene.cs:513-531 | a shape that is down waits longer than the key repeat time, so one more key move fits in before it is fixed |
| GameRules.KeyGate | FallingBlocks.Game/Scene/FallingBlocksGameScene.cs:546-563 | a key is accepted exactly when it is pressed and its accept time has come; acceptance re-arms the gate EventResetTime ms later, a release resets it to 0, and a refused press leaves it |
| GameRules.HeldKeyIsDebounced | FallingBlocks.Game/Scene/FallingBlocksGameScene.cs:546-563 | a key held down is not accepted again within EventResetTime ms of being accepted |
| GameRules.ReleasedKeyIsAcceptedAtOnce | FallingBlocks.Game/Scene/FallingBlocksGameScene.cs:546-563 | after a frame without the key, a press at any timestamp from 0 on is accepted |
| GameRules.ClampedVolume | FallingBlocks.Game/Scene/FallingBlocksGameScene.cs:402-409 | the new volume is the old one plus the step, clamped into [0, 1] on either side |
| GameRules.Shifted | FallingBlocks.Game/Scene/FallingBlocksGameScene.cs:819 | moving cells by an offset adds the offset to each cell and keeps their number and order |
| GameRules.BoxInFieldIffAllInField | FallingBlocks.Game/Scene/FallingBlocksGameScene.cs:779-817 | the bounding box lies in the field exactly when every cell does, so Move's box test is the cell test |
| GameRules.BoundingBoxShifted | FallingBlocks.Game/Scene/FallingBlocksGameScene.cs:779-819 | moving every cell by an offset moves the bounding box by the same offset |
| GameRules.ClampOffset | FallingBlocks.Game/Scene/FallingBlocksGameScene.cs:783-817 | from a box in the field, the clamped offset keeps the box in the field, points the requested way by no more than was asked, and equals the request exactly when no clamp fired |
| GameRules.IntoViewShift | FallingBlocks.Game/Scene/FallingBlocksGameScene.cs:828-847 | the shift brings any box that fits the field back into it, and is zero for a box already inside |
| GameRules.LayoutIsSmall | FallingBlocks.Game/Objects/Shape.cs:38-87 | every style's layout keeps its cubes within two cells of the pivot |
| GameRules.TurnsKeepSmall | FallingBlocks.Game/Objects/Shape.cs:155-224 | turning left or right keeps the cubes within two cells of the pivot |
| GameRules.SpawnInField | FallingBlocks.Game/Scene/FallingBlocksGameScene.cs:67 | every style laid out at the spawn point lies inside the field |
| GameRules.SmallBox | FallingBlocks.Game/Scene/FallingBlocksGameScene.cs:828-847 | cubes within two cells of the pivot span a box at most four cells wide and high, so it fits the field and can be brought into view |
| Objects.CreateImage | FallingBlocks.Game/Objects/Cube.cs:66-87 | a style value gets a cube image exactly when it is one of the seven enum values 1 to 7; any other value is the out-of-range error |
| Objects.EveryStyleHasItsOwnColour | FallingBlocks.Game/Objects/Cube.cs:66-87 | every style has an image, and different styles have different colours |
| Objects.Layout | FallingBlocks.Game/Objects/Shape.cs:38-87 | every style's constructor lays out four cubes |
| Objects.LayoutCellsDistinct | FallingBlocks.Game/Objects/Shape.cs:38-87 | the four cubes of every layout are on four different cells |
| Objects.TurnRight | FallingBlocks.Game/Objects/Shape.cs:190-223 | a right turn keeps the number of cubes, leaves an O shape as it is, and moves only I shapes and changes only their rotation index |
| Objects.TurnLeft | FallingBlocks.Game/Objects/Shape.cs:155-188 | a left turn keeps the number of cubes, leaves an O shape as it is, and moves only I shapes and changes only their rotation index |
| Objects.IndexStaysInRange | FallingBlocks.Game/Objects/Shape.cs:167-170 | the rotation index stays in 0..3 under both turns |
| Objects.TurnsAreInverse | FallingBlocks.Game/Objects/Shape.cs:155-223 | a left turn undoes a right turn and a right turn undoes a left one: offsets, rotation index and position all come back |
| Objects.FourRightTurnsAreIdentity | FallingBlocks.Game/Objects/Shape.cs:190-223 | four right turns give back the original offsets, index and position |
| Objects.TurnsKeepIndexInRange | FallingBlocks.Game/Objects/Shape.cs:155-223 | any number of turns keeps the rotation index in 0..3 and the number of cubes |
| Objects.RollbackRestores | FallingBlocks.Game/Objects/Shape.cs:155-223 | k left turns undone by k right turns, or the other way round, restore the pose, as a failed rotation's rollback needs |
| Objects.TurnsPeel | FallingBlocks.Game/Objects/Shape.cs:155-223 | k + 1 turns are one turn followed by k turns |
| Objects.ExtremesAttained | FallingBlocks.Game/Objects/Shape.cs:20-29 | the smallest and largest X and Y bound every cell and each is attained by a cell |
| Objects.BoundingBoxTight | FallingBlocks.Game/Objects/Shape.cs:20-29 | every cell lies in the bounding rectangle and each of its four edges touches a cell |
| Objects.BlockedIffShared | FallingBlocks.Game/Objects/Shape.cs:135-150 | on whole cells the tolerance test finds a blocking pair exactly when the shape and the static cubes share a cell |
| Objects.Cube.constructor | FallingBlocks.Game/Objects/Cube.cs:50-59 | the new cube belongs to the given shape with the given style and start offset, and its image is fully opaque |
| Objects.Cube.SetPosition | FallingBlocks.Game/Objects/Cube.cs:26-29 | the setter writes the stored cell and nothing else; on a split cube the position reads back as set |
| Objects.Cube.SetRelativePosition | FallingBlocks.Game/Objects/Cube.cs:38-41 | the setter writes the same stored cell, which reads back as the relative position |
| Objects.Cube.SetOpacity | FallingBlocks.Game/Objects/Cube.cs:44-48 | only the image's opacity changes |
| Objects.Cube.SplitFromShape | FallingBlocks.Game/Objects/Cube.cs:113-117 | the cube leaves its shape and keeps its absolute cell |
| Objects.Cube.UpdateImagePositions | FallingBlocks.Game/Objects/Cube.cs:99-109 | the image goes to the field's corner plus ImageSize pixels per cell of the cube's position; the cube itself is unchanged |
| Objects.PositionsOf | FallingBlocks.Game/Objects/Cube.cs:20-25 | the absolute cell of each cube, in list order |
| Objects.StoredOf | FallingBlocks.Game/Objects/Cube.cs:32-37 | the stored cell of each cube, in list order |
| Objects.Shape.OthersDiffer | FallingBlocks.Game/Objects/Shape.cs:32-36 | the four cubes of a shape are four different objects |
| Objects.Shape.constructor | FallingBlocks.Game/Objects/Shape.cs:32-94 | the new shape has four fresh cubes of its style, attached to it, laid out as the style's layout and all at the given opacity, with rotation index 0 |
| Objects.Shape.BoundingRectangle | FallingBlocks.Game/Objects/Shape.cs:20-29 | every cube's absolute cell lies inside the rectangle |
| Objects.Shape.TurnCubesLeft | FallingBlocks.Game/Objects/Shape.cs:157-165 | every cube's stored offset (x, y) becomes (y, -x), in place; nothing else of the cubes changes |
| Objects.Shape.TurnCubesRight | FallingBlocks.Game/Objects/Shape.cs:192-200 | every cube's stored offset (x, y) becomes (-y, x), in place; nothing else of the cubes changes |
| Objects.Shape.RotateLeft | FallingBlocks.Game/Objects/Shape.cs:155-188 | the shape's pose becomes the left turn of its old pose, its cubes stay the same objects and the shape stays valid |
| Objects.Shape.RotateRight | FallingBlocks.Game/Objects/Shape.cs:190-223 | the shape's pose becomes the right turn of its old pose, its cubes stay the same objects and the shape stays valid |
| Objects.Shape.SetOpacity | FallingBlocks.Game/Objects/Shape.cs:225-231 | every cube gets the opacity and nothing else changes |
| Objects.Shape.Split | FallingBlocks.Game/Objects/Shape.cs:117-125 | every cube leaves the shape and keeps its absolute cell, which it now stores; the shape's own list is returned |
| Objects.Shape.UpdateImagePositions | FallingBlocks.Game/Objects/Shape.cs:127-133 | every cube's image is placed at its cell; the cubes are otherwise unchanged |
| Objects.AttachedCells | FallingBlocks.Game/Objects/Cube.cs:20-25 | an attached shape's cells are its position plus each cube's offset |
| GameGrid.GridRows | FallingBlocks.Game/Scene/FallingBlocksGameScene.cs:106 | the 12 x 22 field array read as 22 well-formed rows of tiles, row y cell x showing field[x, y] |
| GameGrid.RowsAgree | FallingBlocks.Game/Scene/FallingBlocksGameScene.cs:106 | two fields of rows that agree cell by cell are the same field |
| GameGrid.BlocksOf | FallingBlocks.Game/Scene/FallingBlocksGameScene.cs:939-942 | the block each cube leaves in the field, in list order |
| GameGrid.LastAt | FallingBlocks.Game/Scene/FallingBlocksGameScene.cs:939-942 | after writing blocks in order, a cell holds the last block written there, and is untouched exactly when no block is written there |
| GameGrid.LastAtSnoc | FallingBlocks.Game/Scene/FallingBlocksGameScene.cs:939-942 | writing one more block changes only the cell it is written to |
| GameGrid.NewGrid | FallingBlocks.Game/Scene/FallingBlocksGameScene.cs:339 | a fresh field of 12 x 22 empty cells, with no full line |
| GameGrid.AddBlocks | FallingBlocks.Game/Scene/FallingBlocksGameScene.cs:937-942 | each cell holds the last block written to it, or what it held before; every written cell is filled; cubes that sat at their cells still do |
| GameGrid.RowFilled | FallingBlocks.Game/Scene/FallingBlocksGameScene.cs:952-961 | the right-to-left scan with early exit finds row y filled exactly when every cell of the row is filled |
| GameGrid.NothingListedYet | FallingBlocks.Game/Scene/FallingBlocksGameScene.cs:948-950 | the scan starts with nothing listed and every full row still to come |
| GameGrid.FullLinesStep | FallingBlocks.Game/Scene/FallingBlocksGameScene.cs:950-967 | scanning one row keeps the rows listed so far plus the full rows still to scan equal to all the full rows |
| GameGrid.FullRows | FallingBlocks.Game/Scene/FallingBlocksGameScene.cs:946-967 | the scan returns the full rows, bottom row first, as the reference FullLines has them |
| GameGrid.Faded | FallingBlocks.Game/Scene/FallingBlocksGameScene.cs:1004-1008 | a cube shown at another opacity stays a cube and changes nothing else; an empty cell stays empty |
| GameGrid.FadeRow | FallingBlocks.Game/Scene/FallingBlocksGameScene.cs:1002-1013 | every cube of row y gets the opacity and every other cell is unchanged |
| GameGrid.FadeRows | FallingBlocks.Game/Scene/FallingBlocksGameScene.cs:997-1015 | exactly the listed rows show their cubes at the opacity, as the reference Blinked has it, and cubes stay at their cells |
| GameGrid.Lowered | FallingBlocks.Game/Scene/FallingBlocksGameScene.cs:1043-1045 | a moved cube keeps its tile and its position moves one row down |
| GameGrid.ClearRow | FallingBlocks.Game/Scene/FallingBlocksGameScene.cs:1026-1036 | row y becomes empty and every other cell is unchanged |
| GameGrid.LowerRow | FallingBlocks.Game/Scene/FallingBlocksGameScene.cs:1041-1046 | row r takes the cubes of row r - 1, each moved one row down; every other row is unchanged |
| GameGrid.RemoveRow | FallingBlocks.Game/Scene/FallingBlocksGameScene.cs:1023-1053 | the destroyed row goes, every row above it moves one down with its cubes, and an empty row enters at the top, as the reference ShiftDown has it; cubes stay at their cells |
| GameGrid.NotListedBelow | FallingBlocks.Game/Scene/FallingBlocksGameScene.cs:1021-1023 | rows still listed at or above y, y not among them, all lie above y |
| GameGrid.DestroyRows | FallingBlocks.Game/Scene/FallingBlocksGameScene.cs:1018-1061 | the in-place removal, with the list renumbered and the same row checked again after each hit, leaves the field the reference Cleared gives for the listed rows; cubes stay at their cells |
| GameGrid.FieldIsEmpty | FallingBlocks.Game/Scene/FallingBlocksGameScene.cs:1068-1078 | the scan with early exit reports all-empty exactly when no cell of the field holds a cube |
| GameField.TileOf | FallingBlocks.Game/Scene/FallingBlocksGameScene.cs:956 | a cell shows a cube exactly when it holds one |
| GameField.FullLinesBelowExact | FallingBlocks.Game/Scene/FallingBlocksGameScene.cs:950-967 | the scan of rows 0..n-1 lists exactly their full rows, in strictly decreasing order, all within range |
| GameField.FullLinesExact | FallingBlocks.Game/Scene/FallingBlocksGameScene.cs:946-967 | the full lines of a field are exactly its full rows, each once, bottom row first |
| GameField.FullLinesOfIsFullLines | FallingBlocks.Game/Scene/FallingBlocksGameScene.cs:946-967 | a list holds exactly the full rows, bottom-up, if and only if it is the scan's result |
| GameField.SetRowOpacity | FallingBlocks.Game/Scene/FallingBlocksGameScene.cs:1002-1013 | a blinked row keeps its length and which cells are filled; the cubes show the new opacity |
| GameField.Blinked | FallingBlocks.Game/Scene/FallingBlocksGameScene.cs:997-1015 | exactly the listed rows change, and only in opacity |
| GameField.OpacityKeepsFull | FallingBlocks.Game/Scene/FallingBlocksGameScene.cs:1002-1013 | a row is full after a change of opacity exactly when it was full before |
| GameField.BlinkKeepsFullLines | FallingBlocks.Game/Scene/FallingBlocksGameScene.cs:985-1016 | blinking finds the same full rows afterwards |
| GameField.BlinkKeepsFullLinesOf | FallingBlocks.Game/Scene/FallingBlocksGameScene.cs:985-1016 | while blinking, the lines to destroy remain exactly the full rows and every filled cell stays filled |
| GameField.NoFullRowNoLines | FallingBlocks.Game/Scene/FallingBlocksGameScene.cs:969-982 | a field without a full row gives an empty list of lines |
| GameField.ShiftDown | FallingBlocks.Game/Scene/FallingBlocksGameScene.cs:1023-1053 | one in-place removal: row y goes, the rows above it move one down and row 0 becomes blank; rows below y are untouched |
| GameField.RemoveFirst | FallingBlocks.Game/Scene/FallingBlocksGameScene.cs:1056 | List.Remove drops the first occurrence of the value, one element shorter, and leaves a list without it unchanged; on distinct lines it removes exactly that value |
| GameField.Incremented | FallingBlocks.Game/Scene/FallingBlocksGameScene.cs:1057 | every remaining line number goes up by one, in order |
| GameField.RenumberedLines | FallingBlocks.Game/Scene/FallingBlocksGameScene.cs:1055-1058 | after a removal at y the renumbered list is again distinct and lies in [1, y] |
| GameField.RemovalStep | FallingBlocks.Game/Scene/FallingBlocksGameScene.cs:1021-1060 | removing listed row y in place and renumbering the lines above it leaves the final field unchanged, which is the invariant of the DestroyLines loop |
| GameField.ClearedNothing | FallingBlocks.Game/Scene/FallingBlocksGameScene.cs:1021-1060 | with no row listed, nothing changes |
| GameField.ClearedShape | FallingBlocks.Game/Scene/FallingBlocksGameScene.cs:1018-1061 | after destroying distinct lines, the top rows are empty, one per destroyed line, and below them come exactly the other rows in their original order |
| GameField.DestroyedCount | FallingBlocks.Game/Scene/FallingBlocksGameScene.cs:1018-1061 | destroying k distinct full rows removes exactly 12 * k cubes |
| GameField.NoFullLineAfterDestroy | FallingBlocks.Game/Scene/FallingBlocksGameScene.cs:1018-1061 | once all full rows are destroyed no full row is left |
| GameField.ClearingFullLines | FallingBlocks.Game/Scene/FallingBlocksGameScene.cs:946-1061 | the lines FindFullLines records are distinct rows of the field, and destroying them leaves no full row |
| GameField.Survivors | FallingBlocks.Game/Scene/FallingBlocksGameScene.cs:1018-1061 | the surviving row numbers all lie in the field |
| GameField.SurvivorsMembers | FallingBlocks.Game/Scene/FallingBlocksGameScene.cs:1018-1061 | a row survives exactly when it is in the field and not listed |
| GameField.SurvivorsAscending | FallingBlocks.Game/Scene/FallingBlocksGameScene.cs:1018-1061 | the surviving rows keep their top-to-bottom order |
| GameScene.ShapesOf | FallingBlocks.Game/Objects/Cube.cs:18 | the owning shape of each cube, in list order; null once the cube is split |
| GameScene.CellsFrom | FallingBlocks.Game/Objects/Cube.cs:20-25 | each cube's cell: its shape's position plus its offset while attached, its stored cell once split |
| GameScene.CellsArePlaced | FallingBlocks.Game/Objects/Shape.cs:135-150 | for a shape whose cubes are its own or split, the cells the Position getters give are the cells the shape covers |
| GameScene.AttachedCellsAt | FallingBlocks.Game/Objects/Cube.cs:20-25 | an attached shape covers its offsets moved to its position, and moving the shape moves every cell by the same amount |
| GameScene.ApartCubes | FallingBlocks.Game/Scene/FallingBlocksGameScene.cs:760-763 | two lists with no common cube differ cube by cube |
| GameScene.ApartFrom | FallingBlocks.Game/Scene/FallingBlocksGameScene.cs:760-763 | no cube of one list is a member of the other |
| GameScene.TurnsStep | FallingBlocks.Game/Scene/FallingBlocksGameScene.cs:855 | one more turn of the ghost after k turns is k + 1 turns |
| GameScene.OrientTurns | FallingBlocks.Game/Objects/Shape.cs:155-223 | turns change offsets and rotation index alone, so two poses that differ only in place still differ only in place after a turn |
| GameScene.Attempt | FallingBlocks.Game/Scene/FallingBlocksGameScene.cs:854-856 | one pass of a rotation turns the shape exactly as a plain turn does; only the place can differ, by MoveIntoView |
| GameScene.AttemptsOrient | FallingBlocks.Game/Scene/FallingBlocksGameScene.cs:854-873 | k passes turn the shape as k plain turns do; only the place differs |
| GameScene.PassBlockedAt | FallingBlocks.Game/Scene/FallingBlocksGameScene.cs:860 | entry k of the pass table tells whether the shape, after pass k + 1, is blocked on the field |
| GameScene.PassesBlockedEntry | FallingBlocks.Game/Scene/FallingBlocksGameScene.cs:860 | entry i - 1 of the pass table is whether pass i is blocked |
| GameScene.FirstFree | FallingBlocks.Game/Scene/FallingBlocksGameScene.cs:860-880 | the pass a rotation stops on lies within the passes allowed, or is 0 when it stops on none |
| GameScene.FirstFreeFrom | FallingBlocks.Game/Scene/FallingBlocksGameScene.cs:860-880 | scanning from entry j: 0 exactly when every later entry is blocked, else an unblocked entry after blocked ones |
| GameScene.FirstFreeNone | FallingBlocks.Game/Scene/FallingBlocksGameScene.cs:860-890 | a rotation rolls back exactly when every pass it may make is blocked |
| GameScene.FirstFreeFree | FallingBlocks.Game/Scene/FallingBlocksGameScene.cs:860-880 | otherwise the rotation ends on a pass it may make that is not blocked |
| GameScene.FirstFreeFirst | FallingBlocks.Game/Scene/FallingBlocksGameScene.cs:860-880 | and every pass before that one is blocked |
| GameScene.TurnsStaySmall | FallingBlocks.Game/Objects/Shape.cs:155-223 | any number of turns keeps offsets within two cells of the pivot |
| GameScene.GhostStaysSmall | FallingBlocks.Game/Scene/FallingBlocksGameScene.cs:855 | a ghost turned along with its shape keeps offsets within two cells |
| GameScene.SplitStaysPut | FallingBlocks.Game/Scene/FallingBlocksGameScene.cs:860-890 | a shape with a split cube is blocked wherever it turns, so its rotation always rolls back |
| GameScene.DownStep | FallingBlocks.Game/Scene/FallingBlocksGameScene.cs:783-817 | Move(shape, 0, 1) moves one row down, or not at all from the bottom row, and reports success exactly when the box is above the bottom row |
| GameScene.TopRowBottom | FallingBlocks.Game/Scene/FallingBlocksGameScene.cs:67 | cubes within two cells of a pivot on row 0 do not reach below the field |
| GameScene.StepStaysInField | FallingBlocks.Game/Scene/FallingBlocksGameScene.cs:777-826 | an offset that keeps the box of a shape in play inside the field keeps every cube inside the field |
| GameScene.LandsInView | FallingBlocks.Game/Scene/FallingBlocksGameScene.cs:828-847 | a small attached shape moved by MoveIntoView's shift lies entirely inside the field |
| GameScene.AttemptInPlay | FallingBlocks.Game/Scene/FallingBlocksGameScene.cs:854-856 | a pass of a rotation keeps a shape in play inside the field |
| GameScene.AttemptsInPlay | FallingBlocks.Game/Scene/FallingBlocksGameScene.cs:854-873 | however many passes a rotation makes, a shape in play stays inside the field |
| GameScene.Spawned | FallingBlocks.Game/Scene/FallingBlocksGameScene.cs:536 | a shape laid out by its style is inside the field at the start point |
| GameScene.NewCubes | FallingBlocks.Game/Objects/Shape.cs:36 | two different shapes whose cube lists are disjoint share no cube |
| GameScene.FreshParts | FallingBlocks.Game/Objects/Shape.cs:32-94 | a newly laid-out shape has four different attached cubes with small offsets and lies inside the field at the start point |
| GameScene.NewShape | FallingBlocks.Game/Objects/Shape.cs:32-94 | new Shape(style, opacity) gives a fresh shape with fresh cubes at the given opacity, laid out by its style, unturned, without a ghost and inside the field at the start point |
| GameScene.LaidOut | FallingBlocks.Game/Objects/Shape.cs:38-87 | cubes placed one by one at the layout's offsets give the layout as the shape's offsets |
| GameScene.StyleCodeInjective | FallingBlocks.Game/Objects/ShapeStyle.cs:3-45 | two styles have the same enum value exactly when they are the same style |
| GameScene.AllStylesOnce | FallingBlocks.Game/Scene/FallingBlocksGameScene.cs:81 | every style occurs exactly once among the enum's values |
| GameScene.PermutationDistinct | FallingBlocks.Game/Scene/FallingBlocksGameScene.cs:712-713 | a permutation of the seven style values lists seven different styles |
| GameScene.NoOpPicks | FallingBlocks.Game/Scene/FallingBlocksGameScene.cs:713 | a shuffle whose every pick swaps an index with itself leaves the list as it is |
| GameScene.LastPick | FallingBlocks.Game/Scene/FallingBlocksGameScene.cs:713 | a shuffle whose only real pick is the last one, swapping index 1 with 0 or 1, puts either of the first two elements in front |
| GameScene.FrontWitness | FallingBlocks.Game/Scene/FallingBlocksGameScene.cs:715-718 | among the complete shuffles of seven styles there is one that does not start with the style to avoid |
| GameScene.AcceptedShuffleExists | FallingBlocks.Game/Scene/FallingBlocksGameScene.cs:715-718 | some complete shuffle of a permutation of the styles starts with another style than the last one drawn, so the reshuffle loop has an outcome |
| GameScene.FirstTwoDraws | FallingBlocks.Game/Scene/FallingBlocksGameScene.cs:708-724 | the first two draws from an empty bag take the first two styles of one fresh shuffle, which are different, and leave five in the bag |
| GameScene.DrawStyle | FallingBlocks.Game/Scene/FallingBlocksGameScene.cs:710-724 | a draw takes the first style of the bag, refilling an empty bag with a shuffle of all seven styles that does not start with the previous bag's last style; the drawn style differs from the one drawn before |
| GameScene.DrawDiffers | FallingBlocks.Game/Scene/FallingBlocksGameScene.cs:710-724 | after a draw the bag is in order again, and the drawn style differs from the one drawn before it |
| GameScene.MoveIntoView | FallingBlocks.Game/Scene/FallingBlocksGameScene.cs:828-847 | the shape moves by the amounts its box sticks out of the field, and an attached small shape then lies inside the field |
| GameScene.TurnOne | FallingBlocks.Game/Objects/Shape.cs:155-223 | RotateLeft or RotateRight of one shape: its pose becomes the plain turn of the old pose, its cubes and their owners stay |
| GameScene.Turn | FallingBlocks.Game/Scene/FallingBlocksGameScene.cs:854-855 | the shape turns, and its ghost, if any, turns the same way; the cubes stay the same objects |
| GameScene.TurnIntoView | FallingBlocks.Game/Scene/FallingBlocksGameScene.cs:854-856 | a turn followed by MoveIntoView gives the shape the pose of one pass, and the ghost the plain turn |
| GameScene.Pass | FallingBlocks.Game/Scene/FallingBlocksGameScene.cs:854-860 | one pass: the shape takes the next pass's pose and reports whether that pose is blocked on the field |
| GameScene.NextPass | FallingBlocks.Game/Scene/FallingBlocksGameScene.cs:870-873 | pass k + 1 takes the shape k + 1 passes from its start and reports that pass's entry in the pass table |
| GameScene.RotatePasses | FallingBlocks.Game/Scene/FallingBlocksGameScene.cs:854-880 | one pass, then more while the shape is blocked and down, three at most: it stops on the first unblocked pass, or reports that all passes allowed were blocked |
| GameScene.TurnBack | FallingBlocks.Game/Scene/FallingBlocksGameScene.cs:884-888 | count turns the other way turn the shape and its ghost back by count turns |
| GameScene.Unturn | FallingBlocks.Game/Scene/FallingBlocksGameScene.cs:882-890 | the rollback restores the shape's pose and position, and its ghost's pose, exactly as they were before the rotation |
| GameScene.TryRotate | FallingBlocks.Game/Scene/FallingBlocksGameScene.cs:849-935 | the shape ends on the first pass that is not blocked, or, when every pass allowed is blocked, exactly where it started, its ghost too; a shape inside the field stays inside |
| GameScene.BlinkTwice | FallingBlocks.Game/Scene/FallingBlocksGameScene.cs:451-462 | starting from FindFullLines' state, the blink count reaches LineDestroyBlinkCount only on the fourth step: the lines fade and come back twice before they are destroyed |
| GameScene.GatedKeepsOthers | FallingBlocks.Game/Scene/FallingBlocksGameScene.cs:546-563 | a key's gate changes that key's nextAcceptTime only |
| GameScene.MoveKeyGates | FallingBlocks.Game/Scene/FallingBlocksGameScene.cs:545-603 | the gates of Left, Right and Down, one after the other, each update only their own time |
| GameScene.TurnKeyGates | FallingBlocks.Game/Scene/FallingBlocksGameScene.cs:605-645 | the gates of Up and Fire, one after the other, each update only their own time |
| GameScene.OptionKeysDiffer | FallingBlocks.Game/Scene/FallingBlocksGameScene.cs:647-705 | S, G, Add and Subtract are four different keys |
| GameScene.OptionKeyGates | FallingBlocks.Game/Scene/FallingBlocksGameScene.cs:647-705 | the gates of S, G, Add and Subtract, one after the other, each update only their own time |
| GameScene.KeyGatesInGroups | FallingBlocks.Game/Scene/FallingBlocksGameScene.cs:543-706 | the gates of all nine keys are those of the move keys, then the turn keys, then the option keys |
| GameScene.OptionTimesKept | FallingBlocks.Game/Scene/FallingBlocksGameScene.cs:545-645 | the move and turn keys leave the option keys' times alone |
| GameScene.GatedAllKeepsOthers | FallingBlocks.Game/Scene/FallingBlocksGameScene.cs:543-706 | gating keys that do not include k leaves k's time as it was |
| GameScene.KeyOrderTimes | FallingBlocks.Game/Scene/FallingBlocksGameScene.cs:543-706 | after one frame, each of the nine keys has the time its own gate gives from its own earlier time, and every other key keeps its time |
| GameScene.GatedAllAppend | FallingBlocks.Game/Scene/FallingBlocksGameScene.cs:543-706 | gating a + b is gating a, then b |
| GameScene.GatedAllTimes | FallingBlocks.Game/Scene/FallingBlocksGameScene.cs:543-706 | for distinct keys, each key passes through its own gate once, from its own earlier time; every other key keeps its time |
| GameScene.FallingBlocksGame.BlockedOnRows | FallingBlocks.Game/Scene/FallingBlocksGameScene.cs:106 | the test on the field array agrees with the test on its rows of tiles |
| GameScene.FallingBlocksGame.StaticCubesAgree | FallingBlocks.Game/Objects/Shape.cs:135-150 | when the static-cube list names exactly the filled cells, IsCurrentPositionBlocked on that list is the field test: a split cube, or a covered cell that is filled |
| GameScene.FallingBlocksGame.Move | FallingBlocks.Game/Scene/FallingBlocksGameScene.cs:777-826 | the offset is clamped so that the box stays in the field; the shape then stands at the clamped position unless that is blocked, when it stays put; it reports true exactly when the full offset was applied without a block; a shape inside the field stays inside |
| GameScene.FallingBlocksGame.AddStaticCubes | FallingBlocks.Game/Scene/FallingBlocksGameScene.cs:937-944 | each cell holds the last cube written to it, or what it held before; exactly the cubes' cells become filled; cubes stay at their cells |
| GameScene.FallingBlocksGame.FindFullLines | FallingBlocks.Game/Scene/FallingBlocksGameScene.cs:946-983 | the lines to destroy are the full rows of the field, bottom-up; destroy mode is on exactly when there is one; the blink state restarts |
| GameScene.FallingBlocksGame.MarkLines | FallingBlocks.Game/Scene/FallingBlocksGameScene.cs:969-982 | destroy mode is on exactly when some line is listed; the blink count is 0 and the status is full opacity |
| GameScene.FallingBlocksGame.BlinkLines | FallingBlocks.Game/Scene/FallingBlocksGameScene.cs:985-1016 | the blink state takes one step, and the listed rows, and only they, show the new opacity |
| GameScene.FallingBlocksGame.DestroyLines | FallingBlocks.Game/Scene/FallingBlocksGameScene.cs:1018-1061 | the field becomes the reference Cleared of the listed rows: they go, the rows above them move down and empty rows come in on top |
| GameScene.FallingBlocksGame.ScoreFullLines | FallingBlocks.Game/Scene/FallingBlocksGameScene.cs:1063-1098 | the line total grows by the number of destroyed lines and the points by the table's points for that number times the level; destroy mode ends and the list is cleared |
| GameScene.FallingBlocksGame.CalcNextMoveTimestamp | FallingBlocks.Game/Scene/FallingBlocksGameScene.cs:513-531 | the next automatic step is due after the delay the current state calls for |
| GameScene.FallingBlocksGame.CreateNextShape | FallingBlocks.Game/Scene/FallingBlocksGameScene.cs:708-744 | the style is drawn from the bag as Draw says, and the new shape is fresh, fully opaque, unturned, without a ghost, with cubes of its own and inside the field at the start point |
| GameScene.FallingBlocksGame.DestroyGhostShape | FallingBlocks.Game/Scene/FallingBlocksGameScene.cs:746-753 | the ghost leaves the scene if there is one, and stays out otherwise |
| GameScene.FallingBlocksGame.CreateGhostShape | FallingBlocks.Game/Scene/FallingBlocksGameScene.cs:755-764 | with the ghost enabled, a new faint shape of the moving shape's style, laid out and unturned, replaces the old ghost in the scene and becomes the moving shape's ghost; disabled, nothing changes |
| GameScene.FallingBlocksGame.ToggleGhostShape | FallingBlocks.Game/Scene/FallingBlocksGameScene.cs:425-437 | the ghost setting flips; switched on, a new ghost is created as CreateGhostShape does; switched off, the ghost leaves the scene |
| GameScene.FallingBlocksGame.DropStep | FallingBlocks.Game/Scene/FallingBlocksGameScene.cs:777-826 | on an attached shape inside the field, Move(shape, 0, 1) succeeds exactly when the box is above the bottom row and the cells one row lower are free |
| GameScene.FallingBlocksGame.DropsFurther | FallingBlocks.Game/Scene/FallingBlocksGameScene.cs:771-774 | a shape that could drop from every row above y and can drop from y could drop from every row above y + 1 |
| GameScene.FallingBlocksGame.Drop | FallingBlocks.Game/Scene/FallingBlocksGameScene.cs:771 | one Move(shape, 0, 1): the shape goes one row down exactly when it can, and has then dropped from every row down to its new one |
| GameScene.FallingBlocksGame.DropAll | FallingBlocks.Game/Scene/FallingBlocksGameScene.cs:771-774 | the loop moves the shape down while it can: it ends in the same column on a row from which it cannot drop, having dropped from every row above |
| GameScene.FallingBlocksGame.CalcGhostShapePosition | FallingBlocks.Game/Scene/FallingBlocksGameScene.cs:766-775 | with the ghost enabled, the ghost ends in the moving shape's column on the first row, from the top, from which it cannot drop; disabled, nothing moves |
| GameScene.FallingBlocksGame.TakeNext | FallingBlocks.Game/Scene/FallingBlocksGameScene.cs:535-536 | the next shape becomes the moving shape, at the start point, inside the field |
| GameScene.FallingBlocksGame.DrawNext | FallingBlocks.Game/Scene/FallingBlocksGameScene.cs:538 | a new next shape is drawn from the bag, of another style than the moving shape and sharing no cube with it |
| GameScene.FallingBlocksGame.GhostForNewShape | FallingBlocks.Game/Scene/FallingBlocksGameScene.cs:540 | CreateGhostShape for the new moving shape restores the game's invariant |
| GameScene.FallingBlocksGame.AddNextShape | FallingBlocks.Game/Scene/FallingBlocksGameScene.cs:533-541 | the next shape becomes the moving shape at the start point, a fresh next shape is drawn and, with the ghost enabled, a fresh ghost of the moving shape's style is made; the game stays valid |
| GameScene.FallingBlocksGame.CheckSpawn | FallingBlocks.Game/Scene/FallingBlocksGameScene.cs:444-449 | the game is over exactly when it already was or the moving shape is blocked on the top row, and then the game-over text is set |
| GameScene.ClearedLinesNeverClashes | FallingBlocks.Game/Scene/FallingBlocksGameScene.cs:448 | the game's "Cleared Lines" statistic never clashes with the fixed keys, so its GameOver call never throws |
| GameScene.FallingBlocksGame.StepDown | FallingBlocks.Game/Scene/FallingBlocksGameScene.cs:466 | the moving shape goes one row down exactly when it can drop, and otherwise stays put; the game stays valid |
| GameScene.FallingBlocksGame.SplitCurrent | FallingBlocks.Game/Scene/FallingBlocksGameScene.cs:496 | every cube of the moving shape leaves it and keeps its absolute cell; the next shape and the ghost are untouched |
| GameScene.FallingBlocksGame.Detach | FallingBlocks.Game/Scene/FallingBlocksGameScene.cs:496 | the moving shape is split: its cubes are on the cells it covered, all inside the field |
| GameScene.FallingBlocksGame.RotationParts | FallingBlocks.Game/Scene/FallingBlocksGameScene.cs:849-935 | a valid game gives a rotation what it needs: the moving shape's rig, its ghost's small offsets, and which shapes share no cube |
| GameScene.FallingBlocksGame.RotationKeepsValid | FallingBlocks.Game/Scene/FallingBlocksGameScene.cs:849-935 | a rotation that changes only the pose of the moving shape and its ghost, and keeps the shape inside the field, keeps the game valid |
| GameScene.FallingBlocksGame.DestroyModeParts | FallingBlocks.Game/Scene/FallingBlocksGameScene.cs:451-458 | a valid game has the field invariant, the counters and the spare shapes the destroy step needs |
| GameScene.FallingBlocksGame.InValidFieldOk | FallingBlocks.Game/Scene/FallingBlocksGameScene.cs:106 | a valid game has a 12 x 22 field |
| GameScene.FallingBlocksGame.InPlayParts | FallingBlocks.Game/Scene/FallingBlocksGameScene.cs:466-496 | a valid game outside destroy mode has its moving shape inside the field |
| GameScene.FallingBlocksGame.LandedParts | FallingBlocks.Game/Scene/FallingBlocksGameScene.cs:496-505 | the state after a landing keeps the field, counters and spare shapes in order |
| GameScene.FallingBlocksGame.LandedValid | FallingBlocks.Game/Scene/FallingBlocksGameScene.cs:498-505 | a landing that found full rows leaves the game valid, in destroy mode |
| GameScene.FallingBlocksGame.PlaceCubes | FallingBlocks.Game/Scene/FallingBlocksGameScene.cs:496 | AddStaticCubes on the moving shape's split cubes fills exactly their cells, leaving the landed state |
| GameScene.FallingBlocksGame.MarkFullLines | FallingBlocks.Game/Scene/FallingBlocksGameScene.cs:499 | FindFullLines makes the lines to destroy the full rows of the field |
| GameScene.FallingBlocksGame.Settle | FallingBlocks.Game/Scene/FallingBlocksGameScene.cs:495-499 | the landing: exactly the cells the moving shape covered become filled, the lines to destroy are the full rows, and the game is valid if destroy mode started |
| GameScene.FallingBlocksGame.BankDropPoints | FallingBlocks.Game/Scene/FallingBlocksGameScene.cs:492-493 | the drop points are added to the points and start again from zero |
| GameScene.FallingBlocksGame.Touchdown | FallingBlocks.Game/Scene/FallingBlocksGameScene.cs:486-499 | the flags drop, the drop points go to the points, exactly the cells the shape covered become filled and the lines to destroy are the full rows |
| GameScene.FallingBlocksGame.Land | FallingBlocks.Game/Scene/FallingBlocksGameScene.cs:485-506 | the shape is down: the flags drop, the drop points are banked, exactly the covered cells fill, the full rows become the lines to destroy, and without one the next shape comes in at the start point; the game stays valid |
| GameScene.FallingBlocksGame.BlinkField | FallingBlocks.Game/Scene/FallingBlocksGameScene.cs:985-1016 | blinking keeps the lines to destroy the full rows and empties no cell |
| GameScene.FallingBlocksGame.BlinkFullLines | FallingBlocks.Game/Scene/FallingBlocksGameScene.cs:461 | one blink keeps the game valid and in destroy mode, with the same lines to destroy |
| GameScene.FallingBlocksGame.DestroyField | FallingBlocks.Game/Scene/FallingBlocksGameScene.cs:1018-1061 | the full rows go and no full row is left |
| GameScene.FallingBlocksGame.DestroyFullLines | FallingBlocks.Game/Scene/FallingBlocksGameScene.cs:455-456 | DestroyLines then ScoreFullLines: the full rows go, the line total and the points grow by the table, and destroy mode ends |
| GameScene.FallingBlocksGame.ClearFullLines | FallingBlocks.Game/Scene/FallingBlocksGameScene.cs:453-458 | after the second blink the full lines go, are scored, and the next shape comes in at the start point; the game stays valid |
| GameScene.FallingBlocksGame.KeepFalling | FallingBlocks.Game/Scene/FallingBlocksGameScene.cs:467-475 | the shape moved down: it is no longer down, and a dropping shape earns one point per row |
| GameScene.FallingBlocksGame.StopDrop | FallingBlocks.Game/Scene/FallingBlocksGameScene.cs:478-484 | a dropping shape that can go no further stops dropping, is down for one more interval, and its ghost leaves the scene |
| GameScene.FallingBlocksGame.Fall | FallingBlocks.Game/Scene/FallingBlocksGameScene.cs:466-507 | outside destroy mode the shape moves down exactly when it can; a dropping shape that cannot stops dropping; any other shape that cannot lands; the game stays valid |
| GameScene.FallingBlocksGame.Advance | FallingBlocks.Game/Scene/FallingBlocksGameScene.cs:451-508 | destroy mode blinks until the blink count is reached, then clears and scores the lines; otherwise the shape falls; the game stays valid |
| GameScene.FallingBlocksGame.MoveDue | FallingBlocks.Game/Scene/FallingBlocksGameScene.cs:444-509 | the game is over exactly when it was or the shape was blocked on the top row; the move is made and the next one timed from now |
| GameScene.FallingBlocksGame.ProcessAutomaticMove | FallingBlocks.Game/Scene/FallingBlocksGameScene.cs:439-511 | nothing changes before the next move is due; once it is due the spawn test, the move and the timing are done; the game stays valid |
| GameScene.FallingBlocksGame.TurnCurrent | FallingBlocks.Game/Scene/FallingBlocksGameScene.cs:849-935 | TryRotate on the moving shape against the static cubes, with its cubes and ghost kept |
| GameScene.FallingBlocksGame.RotateCurrent | FallingBlocks.Game/Scene/FallingBlocksGameScene.cs:849-935 | the moving shape ends on the first unblocked pass or where it was, and a split shape always stays put; the game stays valid |
| GameScene.FallingBlocksGame.Gate | FallingBlocks.Game/Scene/FallingBlocksGameScene.cs:546-563 | a key is accepted as KeyGate says, and only its own nextAcceptTime changes |
| GameScene.FallingBlocksGame.Shift | FallingBlocks.Game/Scene/FallingBlocksGameScene.cs:552 | Move(current, dx, 0) leaves the shape at the clamped column unless that is blocked, and the game valid |
| GameScene.FallingBlocksGame.SwitchGhost | FallingBlocks.Game/Scene/FallingBlocksGameScene.cs:425-437 | ToggleGhostShape flips the setting and keeps the game valid; switched on, the ghost is a new one of the moving shape's style |
| GameScene.FallingBlocksGame.Rearm | FallingBlocks.Game/Scene/FallingBlocksGameScene.cs:554-557 | after a key move or turn, a shape that is down waits the full delay again; otherwise the timing stays |
| GameScene.FallingBlocksGame.ShiftKey | FallingBlocks.Game/Scene/FallingBlocksGameScene.cs:545-583 | the left or right arrow: through its gate, then Move by one column, and a shape that is down is re-timed |
| GameScene.FallingBlocksGame.DropKey | FallingBlocks.Game/Scene/FallingBlocksGameScene.cs:585-603 | the down arrow: through its gate, a shape that is neither dropping nor down starts dropping and its next move comes after the drop interval |
| GameScene.FallingBlocksGame.TurnKey | FallingBlocks.Game/Scene/FallingBlocksGameScene.cs:605-645 | the up arrow or fire: through its gate, the shape is rotated as TryRotate says, or left alone when the key is held back; a shape that is down is re-timed |
| GameScene.FallingBlocksGame.SoundKey | FallingBlocks.Game/Scene/FallingBlocksGameScene.cs:647-660 | the S key: through its gate, the sound setting flips exactly when the key is accepted |
| GameScene.FallingBlocksGame.GhostKey | FallingBlocks.Game/Scene/FallingBlocksGameScene.cs:662-675 | the G key: through its gate, the ghost setting flips exactly when the key is accepted; the game stays valid |
| GameScene.FallingBlocksGame.VolumeKey | FallingBlocks.Game/Scene/FallingBlocksGameScene.cs:677-705 | + or -: through its gate, the volume takes the clamped step exactly when the key is accepted |
| GameScene.FallingBlocksGame.MoveKeys | FallingBlocks.Game/Scene/FallingBlocksGameScene.cs:545-603 | left, right and down, in that order, each through its gate; a drop starts exactly when down is accepted on a shape neither dropping nor down |
| GameScene.FallingBlocksGame.TurnKeys | FallingBlocks.Game/Scene/FallingBlocksGameScene.cs:605-645 | up then fire, each through its gate; a shape that is not down keeps its timing |
| GameScene.FallingBlocksGame.OptionKeys | FallingBlocks.Game/Scene/FallingBlocksGameScene.cs:647-705 | S, G, + and -, in that order, each through its gate; each setting changes exactly when its key is accepted |
| GameScene.FallingBlocksGame.ProcessKeyEvents | FallingBlocks.Game/Scene/FallingBlocksGameScene.cs:543-706 | the nine keys go through their gates in order; each key's new nextAcceptTime is what its gate gives, a drop, the sound, the ghost and the volume change exactly when their keys are accepted, and the game stays valid |
| GameScene.FallingBlocksGame.Relevel | FallingBlocks.Game/Scene/FallingBlocksGameScene.cs:318-322 | after the frame's moves, the level and the move interval follow the cleared lines; the game stays valid |
| GameScene.FallingBlocksGame.LevelParts | FallingBlocks.Game/Scene/FallingBlocksGameScene.cs:318-322 | validity apart from the level: the level is the only part of it that Relevel writes |
| GameScene.FallingBlocksGame.ClearCounters | FallingBlocks.Game/Scene/FallingBlocksGameScene.cs:341-355 | a new empty field with no full line, empty bags and lines, and the counters at their start values |
| GameScene.FallingBlocksGame.StartShapes | FallingBlocks.Game/Scene/FallingBlocksGameScene.cs:357-362 | from empty bags the moving shape is drawn first and put at the start point, its ghost made, then the next shape drawn: two different styles from one shuffle, five left in the bag |
| GameScene.FallingBlocksGame.FreshStartIsValid | FallingBlocks.Game/Scene/FallingBlocksGameScene.cs:335-363 | the state Reset leaves is valid |
| GameScene.FallingBlocksGame.Reset | FallingBlocks.Game/Scene/FallingBlocksGameScene.cs:335-363 | a new empty field, empty lines, the start interval and level, no lines or points, not dropping or down, and a fresh moving shape at the start point with its ghost, then a fresh next shape of the second style drawn; the game is valid |
| GameScene.FallingBlocksGame.constructor | FallingBlocks.Game/Scene/FallingBlocksGameScene.cs:145-279 | the options are at their defaults (sound and ghost on, volume 0.5), there is no ghost, the bags are empty, no key has a time, and the field is a fresh empty array |

## Left out

- RenderObject.RemoveFromTree: removing an object that is no longer in the tree does nothing. In the C# code, `ro.Parent.Remove(ro)` throws a NullReferenceException when Parent is null.
- BehaviorCollection: `List.Remove` finds the element by reference. The model removes a chain by its position.
- Behavior chains are sequences (node 0 is the root; node i's next is i + 1 and its back-link is i − 1). So `GetRootBehavior` is position 0, and the aliasing and in-place mutation of tails shared between chains are not modelled.
- Behavior.WellFormedNode: an absolute animation requires a duration above 0. At a duration of 0 or less the C# code divides 0 by 0 (NaN) on the start tick.
- Easing (CosinusProgressConverter) is trigonometry. It is a parameter, and the lemmas require that it maps 0 to 0 and 1 to 1.
- SceneGraph.BuildGameOverText: the key padding counts `string` characters, where C# counts UTF-16 units. The statistics come in the order given, where C# uses the Dictionary's enumeration order. Environment.NewLine is taken to be "\r\n".
- The game field holds value copies (style, cell, opacity) of the landed cubes, not the Cube objects. Aliasing with `currentStaticCubes` and `allObjects` is not modelled, and neither is `RemoveFromScene` in DestroyLines. A split shape is blocked through its split cubes rather than by finding them among the static cubes. A rotation during the blink phase rolls back in both.
- GameScene.FallingBlocksGame.CreateNextShape: the preview position (`nextShapePoint` plus (0.5, 0.5) or (−0.5, 0)) is not set. Float positions become integer cells.
- GameScene.DrawStyle: the C# re-shuffle loop (shuffle again while the first style equals the previous one) is one choice of an accepted permutation.
- Objects.Cube.UpdateImagePositions: the image's Scale is not modelled, only its position and opacity.
- GameScene.FallingBlocksGame.Move: the target cells are checked before the shape moves. C# moves, checks and moves back. The end state is the same.
- UpdateOneFrame is modelled through its parts (ProcessAutomaticMove, ProcessKeyEvents, CalcGhostShapePosition, Relevel). The first-frame timestamp, the text updates, the background scale, the image positions and the call to the base update are left out.
- GameScene.FallingBlocksGame.Reset: isDestroyMode, the drop points, the blink state and the key gates keep their old values, as in C#. The model needs the drop points to be non-negative, which every state the model reaches satisfies.
- GameScene.FallingBlocksGame.constructor: the resources and the layout rectangles are not created. The list of lines to destroy is an empty sequence. The moving and next shapes are placeholder shapes until Reset, where C# leaves both null (FallingBlocksGameScene.cs:108-109, 357-362).
- The `nextAcceptTime_*` fields are one map from key to time.
- GameScene.FallingBlocksGame.ScoreFullLines: the `allEmpty` scan is computed but never used, in C# as in the model.
- Sound: the theme sound, NAudio and the media player (FallingBlocksGameScene.cs:365-423) are I/O. Only the volume clamp is kept.
- Init's call to the base Init, and the resource file loading (the ImageResource file constructor, bitmap sizes), are I/O.
- Particles (randomness, float decay) are an opaque child of Explode.
- Rendering backends (OpenGL, GDI), platform code (game loop, launchers, key polling) and the render-only primitives are not part of this model. The render context is a parameter whose Transform pushes exactly when it returns true.
- Floats are reals, and there is no float rounding. `Length`, `Distance`, `Angle` (sqrt, atan2), `GetDescription` (reflection) and ColorExtensions are not part of this model.
- Debug counters in Shape and Cube (used only by ToString), `Debugger.Break` in BlinkLines, and the collection-modified exception when a behaviour edits its own set mid-iteration are not modelled.
