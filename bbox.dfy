// raytracer/src/bbox.rs: `Box_`, an axis-aligned box made of six rectangles
// that share one material, and whose hit is the hit of that list of sides.
module Boxes {
  import opened Vectors
  import opened Intervals
  import opened Rays
  import Aabbs
  import opened HitRecords
  import opened Scene
  import opened Wrappers
  import opened Hittables
  import AaRects
  import HittableLists

  /**
   * `h` is the face of the box with corners `p0`, `p1` that lies in `plane`:
   * it spans the corners' coordinates on the plane's two axes, sits at the
   * `p1` side of the normal axis when `atMax` and at the `p0` side otherwise,
   * and carries `mat`.
   */
  predicate Face(h: Hittable, plane: Plane, atMax: bool, p0: Vec3, p1: Vec3, mat: Material)
  {
    var (aAxis, bAxis, kAxis) := AaRects.PlaneAxes(plane);
    h.Rect? && h.plane == plane && h.mat == mat &&
    h.a0 == Get(p0, aAxis) && h.a1 == Get(p1, aAxis) &&
    h.b0 == Get(p0, bAxis) && h.b1 == Get(p1, bAxis) &&
    h.k == Get(if atMax then p1 else p0, kAxis)
  }

  /** The six sides of a box, in the order `Box_::new` adds them: far then near face for z, y and x. */
  predicate Faces(sides: seq<Hittable>, p0: Vec3, p1: Vec3, mat: Material)
  {
    |sides| == 6 &&
    Face(sides[0], XY, true, p0, p1, mat) && Face(sides[1], XY, false, p0, p1, mat) &&
    Face(sides[2], XZ, true, p0, p1, mat) && Face(sides[3], XZ, false, p0, p1, mat) &&
    Face(sides[4], YZ, true, p0, p1, mat) && Face(sides[5], YZ, false, p0, p1, mat)
  }

  /**
   * `Box_::new`: stores the corners and adds the six faces to an empty list,
   * every face carrying the box's material.
   */
  method NewBox(p0: Vec3, p1: Vec3, ptr: Material) returns (b: Hittable)
    ensures b.Box? && b.boxMin == p0 && b.boxMax == p1
    ensures Faces(b.sides, p0, p1, ptr)
  {
    var sides := new HittableLists.HittableList();
    sides.Add(Rect(XY, p0.x, p1.x, p0.y, p1.y, p1.z, ptr));
    sides.Add(Rect(XY, p0.x, p1.x, p0.y, p1.y, p0.z, ptr));
    sides.Add(Rect(XZ, p0.x, p1.x, p0.z, p1.z, p1.y, ptr));
    sides.Add(Rect(XZ, p0.x, p1.x, p0.z, p1.z, p0.y, ptr));
    sides.Add(Rect(YZ, p0.y, p1.y, p0.z, p1.z, p1.x, ptr));
    sides.Add(Rect(YZ, p0.y, p1.y, p0.z, p1.z, p0.x, ptr));
    b := Box(p0, p1, sides.objects);
  }

  /** `h` is one of the faces of the box with corners `p0`, `p1`, at either end of its normal axis. */
  predicate SomeFace(h: Hittable, p0: Vec3, p1: Vec3, mat: Material)
  {
    h.Rect? && (Face(h, h.plane, true, p0, p1, mat) || Face(h, h.plane, false, p0, p1, mat))
  }

  lemma EveryFace(sides: seq<Hittable>, p0: Vec3, p1: Vec3, mat: Material)
    requires Faces(sides, p0, p1, mat)
    ensures forall i :: 0 <= i < |sides| ==> SomeFace(sides[i], p0, p1, mat)
  {
    forall i | 0 <= i < |sides| ensures SomeFace(sides[i], p0, p1, mat) {
      assert i in {0, 1, 2, 3, 4, 5};
    }
  }

  /** Lines 83-85: the box's bounding box is its two corners, unpadded, whatever its sides. */
  lemma BoxBoundsAreCorners(p0: Vec3, p1: Vec3, sides: seq<Hittable>, time0: real, time1: real)
    ensures BoundingBox(Box(p0, p1, sides), time0, time1) == Some(Aabbs.NewAabb(p0, p1))
  {
  }

  /** `p` lies on one of the six planes of the box's faces. */
  predicate OnSurface(p: Vec3, p0: Vec3, p1: Vec3)
  {
    p.x == p0.x || p.x == p1.x || p.y == p0.y || p.y == p1.y || p.z == p0.z || p.z == p1.z
  }

  /** The corners are ordered on every axis. */
  predicate Ordered(p0: Vec3, p1: Vec3)
  {
    p0.x <= p1.x && p0.y <= p1.y && p0.z <= p1.z
  }

  /** The ray is parallel to none of the faces. */
  predicate Oblique(r: Ray)
  {
    r.dir.x != 0.0 && r.dir.y != 0.0 && r.dir.z != 0.0
  }

  /**
   * Lines 83-89: a hit on a box built by `Box_::new` with ordered corners, by a
   * ray parallel to none of its faces, lies on the box's surface, inside its
   * bounding box, and carries the box's material.
   */
  lemma BoxHitOnSurface(lib: Numeric, p0: Vec3, p1: Vec3, ptr: Material, sides: seq<Hittable>,
                        r: Ray, tMin: Lo, tMax: Hi, rbg: real, time0: real, time1: real)
    requires Ordered(p0, p1) && Faces(sides, p0, p1, ptr) && Oblique(r)
    requires Hit(lib, Box(p0, p1, sides), r, tMin, tMax, rbg).Some?
    ensures var rec := Hit(lib, Box(p0, p1, sides), r, tMin, tMax, rbg).value;
      Aabbs.Contains(BoundingBox(Box(p0, p1, sides), time0, time1).value, rec.p) &&
      OnSurface(rec.p, p0, p1) && rec.mat == ptr
  {
    EveryFace(sides, p0, p1, ptr);
    ScanOnFaces(lib, p0, p1, ptr, sides, |sides|, r, tMin, tMax, rbg);
  }

  /** The scan over the faces: each hit it keeps is a face hit, so on the surface and in the box. */
  lemma {:induction false} ScanOnFaces(lib: Numeric, p0: Vec3, p1: Vec3, ptr: Material, sides: seq<Hittable>, n: nat,
                                       r: Ray, tMin: Lo, tMax: Hi, rbg: real)
    requires Ordered(p0, p1) && Oblique(r) && n <= |sides|
    requires forall i :: 0 <= i < |sides| ==> SomeFace(sides[i], p0, p1, ptr)
    requires ScanState(lib, sides, n, r, tMin, tMax, rbg).Some?
    ensures var rec := ScanState(lib, sides, n, r, tMin, tMax, rbg).value;
      Aabbs.Contains(Aabbs.NewAabb(p0, p1), rec.p) && OnSurface(rec.p, p0, p1) && rec.mat == ptr
  {
    var acc := ScanState(lib, sides, n - 1, r, tMin, tMax, rbg);
    var hitRec := Hit(lib, sides[n - 1], r, tMin, ClosestOf(acc, tMax), rbg);
    if hitRec.Some? {
      var f := sides[n - 1];
      assert SomeFace(f, p0, p1, ptr);
      assert hitRec == AaRects.RectHit(f.plane, f.a0, f.a1, f.b0, f.b1, f.k, f.mat, r, tMin, ClosestOf(acc, tMax));
      FaceHitOnSurface(f, p0, p1, ptr, r, tMin, ClosestOf(acc, tMax));
    } else {
      ScanOnFaces(lib, p0, p1, ptr, sides, n - 1, r, tMin, tMax, rbg);
    }
  }

  /** A hit on one face lies in the box, on the face's plane, and carries the face's material. */
  lemma FaceHitOnSurface(f: Hittable, p0: Vec3, p1: Vec3, ptr: Material, r: Ray, tMin: Lo, tMax: Hi)
    requires Ordered(p0, p1) && SomeFace(f, p0, p1, ptr) && Oblique(r)
    requires AaRects.RectHit(f.plane, f.a0, f.a1, f.b0, f.b1, f.k, f.mat, r, tMin, tMax).Some?
    ensures var rec := AaRects.RectHit(f.plane, f.a0, f.a1, f.b0, f.b1, f.k, f.mat, r, tMin, tMax).value;
      Aabbs.Contains(Aabbs.NewAabb(p0, p1), rec.p) && OnSurface(rec.p, p0, p1) && rec.mat == ptr
  {
    var t := AaRects.PlaneT(f.plane, f.k, r);
    var axes := AaRects.PlaneAxes(f.plane);
    assert Get(r.dir, axes.2) != 0.0;
    AaRects.RectHitInPlane(f.plane, f.k, r);
    AaRects.CoordsOnRay(f.plane, r, t);
    var p := At(r, t);
    assert Get(p, axes.2) == f.k;
    AaRects.ContainsByAxes(Aabbs.NewAabb(p0, p1), p, axes);
  }
}
