// raytracer/src/aarect.rs: the axis-aligned rectangle `XyRect`. The
// rectangles in the two other planes, which bbox.rs builds boxes from, are the
// same code with the axes permuted; PlaneAxes names the permutation.
module AaRects {
  import opened Vectors
  import opened Intervals
  import opened Rays
  import opened Aabbs
  import opened HitRecords
  import opened Scene
  import opened Wrappers

  /** Half the thickness of a rectangle's bounding box along its normal axis. */
  const Padding: real := 0.0001

  /**
   * The rectangle's two in-plane axes and its normal axis: `XY` spans x and y
   * at a fixed z, `XZ` spans x and z at a fixed y, `YZ` spans y and z at a fixed x.
   */
  function PlaneAxes(plane: Plane): (axes: (Axis, Axis, Axis))
    ensures axes.0 != axes.1 && axes.1 != axes.2 && axes.0 != axes.2
  {
    match plane
    case XY => (0, 1, 2)
    case XZ => (0, 2, 1)
    case YZ => (1, 2, 0)
  }

  /** The point whose in-plane coordinates are `va`, `vb` and whose normal coordinate is `vk`. */
  function InPlane(plane: Plane, va: real, vb: real, vk: real): (p: Vec3)
    ensures Get(p, PlaneAxes(plane).0) == va
    ensures Get(p, PlaneAxes(plane).1) == vb
    ensures Get(p, PlaneAxes(plane).2) == vk
  {
    match plane
    case XY => Vec3(va, vb, vk)
    case XZ => Vec3(va, vk, vb)
    case YZ => Vec3(vk, va, vb)
  }

  /** The unit vector along axis `a`: `Vec3::new(0.0, 0.0, 1.0)` for z. */
  function UnitAxis(a: Axis): (n: Vec3)
    ensures Get(n, a) == 1.0
    ensures forall b: Axis :: b != a ==> Get(n, b) == 0.0
  {
    if a == 0 then Vec3(1.0, 0.0, 0.0) else if a == 1 then Vec3(0.0, 1.0, 0.0) else Vec3(0.0, 0.0, 1.0)
  }

  /** Line 34: where the ray meets the plane of the rectangle. */
  function PlaneT(plane: Plane, k: real, r: Ray): real
  {
    var kAxis := PlaneAxes(plane).2;
    SafeDiv(k - Get(r.orig, kAxis), Get(r.dir, kAxis))
  }

  /** Lines 38-39: the in-plane coordinates of the ray at `t`. */
  function PlaneCoords(plane: Plane, r: Ray, t: real): (real, real)
  {
    var (aAxis, bAxis, _) := PlaneAxes(plane);
    (Get(r.orig, aAxis) + t * Get(r.dir, aAxis), Get(r.orig, bAxis) + t * Get(r.dir, bAxis))
  }

  /**
   * `XyRect::hit`: a hit exactly when the plane crossing lies in the query
   * interval and its in-plane coordinates in the closed rectangle; the record
   * lies on the ray at that crossing and its normal is the plane's normal,
   * turned against the ray.
   */
  function RectHit(plane: Plane, a0: real, a1: real, b0: real, b1: real, k: real, mat: Material,
                   r: Ray, tMin: Lo, tMax: Hi): (res: Option<HitRecord>)
    ensures var t, (x, y) := PlaneT(plane, k, r), PlaneCoords(plane, r, PlaneT(plane, k, r));
      res.Some? <==> InInterval(t, tMin, tMax) && a0 <= x <= a1 && b0 <= y <= b1
    ensures res.Some? ==> res.value.t == PlaneT(plane, k, r) && res.value.p == At(r, res.value.t)
    ensures res.Some? ==> res.value.mat == mat
    ensures res.Some? ==> var n := UnitAxis(PlaneAxes(plane).2);
      res.value.normal == (if Dot(r.dir, n) < 0.0 then n else Neg(n))
    ensures res.Some? ==> var (x, y) := PlaneCoords(plane, r, res.value.t);
      res.value.u == SafeDiv(x - a0, a1 - a0) && res.value.v == SafeDiv(y - b0, b1 - b0)
  {
    var t := PlaneT(plane, k, r);
    if !InInterval(t, tMin, tMax) then None
    else
      var (x, y) := PlaneCoords(plane, r, t);
      if a0 > x || a1 < x || b0 > y || b1 < y then None
      else
        var u := SafeDiv(x - a0, a1 - a0);
        var v := SafeDiv(y - b0, b1 - b0);
        var outwardNormal := UnitAxis(PlaneAxes(plane).2);
        Some(NewHitRecord(At(r, t), t, u, v, mat, outwardNormal, r))
  }

  /** Shrinking the query interval to end at `s <= t_max` keeps the hit exactly when it lies no further than `s`. */
  lemma RectHitRestricts(plane: Plane, a0: real, a1: real, b0: real, b1: real, k: real, mat: Material,
                         r: Ray, tMin: Lo, tMax: Hi, s: Hi)
    requires HiLe(s, tMax)
    ensures RectHit(plane, a0, a1, b0, b1, k, mat, r, tMin, s)
         == Restrict(RectHit(plane, a0, a1, b0, b1, k, mat, r, tMin, tMax), s)
  {
  }

  /** The texture coordinates of a hit on a non-degenerate rectangle lie in the unit square. */
  lemma RectUvInUnitSquare(plane: Plane, a0: real, a1: real, b0: real, b1: real, k: real, mat: Material,
                           r: Ray, tMin: Lo, tMax: Hi)
    requires a0 < a1 && b0 < b1
    requires RectHit(plane, a0, a1, b0, b1, k, mat, r, tMin, tMax).Some?
    ensures var rec := RectHit(plane, a0, a1, b0, b1, k, mat, r, tMin, tMax).value;
      0.0 <= rec.u <= 1.0 && 0.0 <= rec.v <= 1.0
  {
    var (x, y) := PlaneCoords(plane, r, PlaneT(plane, k, r));
    FractionInUnit(x - a0, a1 - a0);
    FractionInUnit(y - b0, b1 - b0);
  }

  lemma FractionInUnit(x: real, d: real)
    requires 0.0 <= x <= d && d > 0.0
    ensures 0.0 <= SafeDiv(x, d) <= 1.0
  {
    var q := x / d;
    assert q * d == x;
  }

  /** `XyRect::bounding_box`: the rectangle, padded along its normal axis. */
  function RectBox(plane: Plane, a0: real, a1: real, b0: real, b1: real, k: real): (box: Aabb)
    ensures var (aAxis, bAxis, kAxis) := PlaneAxes(plane);
      Get(box.minimum, aAxis) == a0 && Get(box.maximum, aAxis) == a1 &&
      Get(box.minimum, bAxis) == b0 && Get(box.maximum, bAxis) == b1 &&
      Get(box.minimum, kAxis) == k - Padding && Get(box.maximum, kAxis) == k + Padding
  {
    NewAabb(InPlane(plane, a0, b0, k - Padding), InPlane(plane, a1, b1, k + Padding))
  }

  /** The hit point lies in the plane of the rectangle, when the ray is not parallel to it. */
  lemma RectHitInPlane(plane: Plane, k: real, r: Ray)
    requires Get(r.dir, PlaneAxes(plane).2) != 0.0
    ensures Get(At(r, PlaneT(plane, k, r)), PlaneAxes(plane).2) == k
  {
    var kAxis := PlaneAxes(plane).2;
    var t := PlaneT(plane, k, r);
    MulSafeDiv(k - Get(r.orig, kAxis), Get(r.dir, kAxis));
    assert Get(At(r, t), kAxis) == Get(r.orig, kAxis) + t * Get(r.dir, kAxis);
  }

  /** Every hit of a ray not parallel to the rectangle lies in its bounding box. */
  lemma RectHitInBox(plane: Plane, a0: real, a1: real, b0: real, b1: real, k: real, mat: Material,
                     r: Ray, tMin: Lo, tMax: Hi)
    requires Get(r.dir, PlaneAxes(plane).2) != 0.0
    requires RectHit(plane, a0, a1, b0, b1, k, mat, r, tMin, tMax).Some?
    ensures Contains(RectBox(plane, a0, a1, b0, b1, k), RectHit(plane, a0, a1, b0, b1, k, mat, r, tMin, tMax).value.p)
  {
    var t := PlaneT(plane, k, r);
    RectHitInPlane(plane, k, r);
    CoordsOnRay(plane, r, t);
    ContainsByAxes(RectBox(plane, a0, a1, b0, b1, k), At(r, t), PlaneAxes(plane));
  }

  /** The in-plane coordinates are those of the point on the ray. */
  lemma CoordsOnRay(plane: Plane, r: Ray, t: real)
    ensures Get(At(r, t), PlaneAxes(plane).0) == PlaneCoords(plane, r, t).0
    ensures Get(At(r, t), PlaneAxes(plane).1) == PlaneCoords(plane, r, t).1
  {
  }

  lemma ContainsByAxes(box: Aabb, p: Vec3, axes: (Axis, Axis, Axis))
    requires axes.0 != axes.1 && axes.1 != axes.2 && axes.0 != axes.2
    requires Get(box.minimum, axes.0) <= Get(p, axes.0) <= Get(box.maximum, axes.0)
    requires Get(box.minimum, axes.1) <= Get(p, axes.1) <= Get(box.maximum, axes.1)
    requires Get(box.minimum, axes.2) <= Get(p, axes.2) <= Get(box.maximum, axes.2)
    ensures Contains(box, p)
  {
    forall c: Axis ensures Get(box.minimum, c) <= Get(p, c) <= Get(box.maximum, c) {
      assert c == axes.0 || c == axes.1 || c == axes.2;
    }
  }
}
