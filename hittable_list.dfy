// raytracer/src/hittable_list.rs: a growable list of scene objects and its
// closest-hit loop.
module HittableLists {
  import opened Intervals
  import opened Rays
  import opened HitRecords
  import opened Scene
  import opened Wrappers
  import opened Vectors
  import opened Hittables

  class HittableList {
    var objects: seq<Hittable>

    /** `HittableList::new`: the empty list. */
    constructor ()
      ensures objects == []
    {
      objects := [];
    }

    /** `HittableList::add`: appends one object. */
    method Add(obj: Hittable)
      modifies this
      ensures objects == old(objects) + [obj]
    {
      objects := objects + [obj];
    }

    /**
     * `HittableList::hit`: each object is queried up to the closest hit so
     * far; a hit replaces the result and lowers the bound. The result is the
     * scan Hittables.ListHit, whose properties (no hit exactly when no object
     * hits, otherwise the minimum) are Hittables.ListHitIsMinimum.
     */
    method Hit(lib: Numeric, r: Ray, tMin: Lo, tMax: Hi, rbg: real) returns (hitAnything: Option<HitRecord>)
      ensures hitAnything == ListHit(lib, objects, r, tMin, tMax, rbg)
      ensures |objects| == 0 ==> hitAnything.None?
    {
      hitAnything := None;
      var closestSoFar := tMax;
      for i := 0 to |objects|
        invariant hitAnything == ScanState(lib, objects, i, r, tMin, tMax, rbg)
        invariant closestSoFar == ClosestOf(hitAnything, tMax)
      {
        var hitRec := Hittables.Hit(lib, objects[i], r, tMin, closestSoFar, rbg);
        if hitRec.Some? {
          hitAnything := hitRec;
          closestSoFar := HiFin(hitRec.value.t);
        }
      }
    }
  }
}
