/**
 * ImageResource and ResourceCollection: resources prepared lazily for the render
 * context, guarded by the IsPrepared flag of AResource.
 */
module Resource {
  /** The render context as resources see it: the images it was asked to prepare, in order. */
  class RenderContext {
    var preparedImages: seq<nat>

    constructor()
      ensures preparedImages == []
    {
      preparedImages := [];
    }

    method PrepareImageResource(image: ImageResource)
      modifies this`preparedImages
      ensures preparedImages == old(preparedImages) + [image.id]
    {
      preparedImages := preparedImages + [image.id];
    }
  }

  /** An image; its bitmap is an opaque value that Prepare never touches. */
  class ImageResource {
    const id: nat
    const data: nat
    var isPrepared: bool

    constructor(id: nat, data: nat)
      ensures this.id == id && this.data == data && !isPrepared
    {
      this.id := id;
      this.data := data;
      isPrepared := false;
    }

    /** The first call hands the image to the context and sets the flag; later calls do nothing. */
    method Prepare(context: RenderContext)
      modifies this`isPrepared, context`preparedImages
      ensures isPrepared
      ensures context.preparedImages ==
              if old(isPrepared) then old(context.preparedImages) else old(context.preparedImages) + [id]
    {
      if !isPrepared {
        context.PrepareImageResource(this);
        isPrepared := true;
      }
    }
  }

  /**
   * The ids handed to the context by one pass over rs: a resource is prepared when it
   * is met unprepared, that is, neither prepared before the pass nor met earlier in it.
   */
  ghost function DueIds(rs: seq<ImageResource>, preparedBefore: set<ImageResource>): seq<nat>
    decreases |rs|
  {
    if |rs| == 0 then []
    else
      var last := rs[|rs| - 1];
      DueIds(rs[..|rs| - 1], preparedBefore) +
      (if last in preparedBefore || last in rs[..|rs| - 1] then [] else [last.id])
  }

  /** Once every resource is prepared, a pass hands nothing to the context. */
  lemma {:induction false} NothingDueWhenAllPrepared(rs: seq<ImageResource>, preparedBefore: set<ImageResource>)
    requires forall r :: r in rs ==> r in preparedBefore
    ensures DueIds(rs, preparedBefore) == []
    decreases |rs|
  {
    if |rs| > 0 {
      assert rs[|rs| - 1] in rs;
      NothingDueWhenAllPrepared(rs[..|rs| - 1], preparedBefore);
    }
  }

  /** List.Remove on the collection's list: drops the first occurrence. */
  function Removed(rs: seq<ImageResource>, r: ImageResource): (res: seq<ImageResource>)
    ensures r !in rs ==> res == rs
    ensures r in rs ==> |res| == |rs| - 1
    ensures forall x :: x in res ==> x in rs
    decreases |rs|
  {
    if |rs| == 0 then []
    else if rs[0] == r then rs[1..]
    else [rs[0]] + Removed(rs[1..], r)
  }

  class ResourceCollection {
    var resources: seq<ImageResource>
    var isPrepared: bool

    constructor()
      ensures resources == [] && !isPrepared
    {
      resources := [];
      isPrepared := false;
    }

    /** Add: appends, clears the collection's flag, returns the same resource. */
    method Add(resource: ImageResource) returns (same: ImageResource)
      modifies this
      ensures resources == old(resources) + [resource] && !isPrepared && same == resource
    {
      resources := resources + [resource];
      isPrepared := false;
      same := resource;
    }

    /** Remove: drops the first occurrence; the flag is left as it was. */
    method Remove(resource: ImageResource) returns (same: ImageResource)
      modifies this
      ensures resources == Removed(old(resources), resource) && isPrepared == old(isPrepared) && same == resource
    {
      resources := Removed(resources, resource);
      same := resource;
    }

    /**
     * Prepare: prepares every contained resource that is not prepared yet, and
     * never sets the collection's own flag.
     */
    method Prepare(context: RenderContext)
      modifies context, set r | r in resources
      ensures resources == old(resources) && isPrepared == old(isPrepared)
      ensures forall r :: r in resources ==> r.isPrepared
      ensures context.preparedImages ==
              old(context.preparedImages) + DueIds(resources, set r | r in resources && old(r.isPrepared))
    {
      ghost var before := set r | r in resources && r.isPrepared;
      var i := 0;
      while i < |resources|
        invariant 0 <= i <= |resources|
        invariant forall r :: r in resources ==> (r.isPrepared <==> r in before || r in resources[..i])
        invariant context.preparedImages == old(context.preparedImages) + DueIds(resources[..i], before)
      {
        var r := resources[i];
        ghost var due := !(r in before || r in resources[..i]);
        assert due == !r.isPrepared;
        assert DueIds(resources[..i + 1], before) == DueIds(resources[..i], before) + (if due then [r.id] else []) by {
          assert resources[..i + 1][..i] == resources[..i];
        }
        assert forall x :: x in resources[..i + 1] <==> x in resources[..i] || x == r by {
          assert resources[..i + 1] == resources[..i] + [r];
        }
        if !r.isPrepared {
          r.Prepare(context);
        }
        i := i + 1;
      }
      assert resources[..i] == resources;
    }
  }
}
