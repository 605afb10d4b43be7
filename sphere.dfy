// raytracer/src/sphere.rs: the static sphere and the sphere moving linearly
// between two centres. Both share one ray-sphere intersection, BallHit; the
// moving sphere evaluates it at its centre at the ray's time.
module Spheres {
  import opened Vectors
  import opened Intervals
  import opened Rays
  import opened Aabbs
  import opened HitRecords
  import opened Wrappers

  // ---- The quadratic `a t^2 + 2 half_b t + c = 0` of lines 36-41 ----

  function HalfB(center: Vec3, r: Ray): real
  {
    Dot(Sub(r.orig, center), r.dir)
  }

  function CTerm(center: Vec3, radius: real, r: Ray): real
  {
    LengthSquared(Sub(r.orig, center)) - radius * radius
  }

  function Discriminant(center: Vec3, radius: real, r: Ray): real
  {
    HalfB(center, r) * HalfB(center, r) - LengthSquared(r.dir) * CTerm(center, radius, r)
  }

  /** `(-half_b - sqrtd) / a`, the nearer root. */
  function NearRoot(lib: Numeric, center: Vec3, radius: real, r: Ray): real
  {
    SafeDiv(-HalfB(center, r) - lib.sqrt(Discriminant(center, radius, r)), LengthSquared(r.dir))
  }

  /** `(-half_b + sqrtd) / a`, the farther root. */
  function FarRoot(lib: Numeric, center: Vec3, radius: real, r: Ray): real
  {
    SafeDiv(-HalfB(center, r) + lib.sqrt(Discriminant(center, radius, r)), LengthSquared(r.dir))
  }

  /** `v / k`, componentwise. */
  function DivScalar(v: Vec3, k: real): Vec3
  {
    Vec3(SafeDiv(v.x, k), SafeDiv(v.y, k), SafeDiv(v.z, k))
  }

  /** Lines 55-61: the record at root `t`, with outward normal `(p - center) / radius`. */
  function SurfaceRecord(lib: Numeric, center: Vec3, radius: real, mat: Material, r: Ray, t: real): (rec: HitRecord)
    ensures rec.t == t && rec.p == At(r, t) && rec.mat == mat
    ensures var n := DivScalar(Sub(At(r, t), center), radius);
      rec.normal == (if Dot(r.dir, n) < 0.0 then n else Neg(n))
    ensures Dot(r.dir, rec.normal) <= 0.0
  {
    var p := At(r, t);
    var outwardNormal := DivScalar(Sub(p, center), radius);
    var (u, v) := lib.sphereUv(outwardNormal);
    NewHitRecord(p, t, u, v, mat, outwardNormal, r)
  }

  /**
   * `Sphere::hit` (and `MovingSphere::hit` at its current centre): no hit when
   * the discriminant is negative; otherwise the nearer root if it lies in the
   * query interval, else the farther root if it does, else no hit.
   */
  function BallHit(lib: Numeric, center: Vec3, radius: real, mat: Material, r: Ray, tMin: Lo, tMax: Hi)
    : (res: Option<HitRecord>)
    ensures res.None? <==>
      Discriminant(center, radius, r) < 0.0 ||
      (!InInterval(NearRoot(lib, center, radius, r), tMin, tMax) &&
       !InInterval(FarRoot(lib, center, radius, r), tMin, tMax))
    ensures res.Some? ==> InInterval(res.value.t, tMin, tMax)
    ensures res.Some? ==>
      res.value.t == NearRoot(lib, center, radius, r) ||
      (res.value.t == FarRoot(lib, center, radius, r) && !InInterval(NearRoot(lib, center, radius, r), tMin, tMax))
    ensures res.Some? ==> res.value == SurfaceRecord(lib, center, radius, mat, r, res.value.t)
  {
    if Discriminant(center, radius, r) < 0.0 then None
    else
      var root := NearRoot(lib, center, radius, r);
      if !InInterval(root, tMin, tMax) then
        var root := FarRoot(lib, center, radius, r);
        if !InInterval(root, tMin, tMax) then None
        else Some(SurfaceRecord(lib, center, radius, mat, r, root))
      else Some(SurfaceRecord(lib, center, radius, mat, r, root))
  }

  /** With a non-negative square root, the nearer root is not beyond the farther one. */
  lemma NearBeforeFar(lib: Numeric, center: Vec3, radius: real, r: Ray)
    requires lib.sqrt(Discriminant(center, radius, r)) >= 0.0
    ensures NearRoot(lib, center, radius, r) <= FarRoot(lib, center, radius, r)
  {
    var a := LengthSquared(r.dir);
    LengthSquaredNonNegative(r.dir);
    if a != 0.0 {
      var hb, s := HalfB(center, r), lib.sqrt(Discriminant(center, radius, r));
      DivMonotone(-hb - s, -hb + s, a);
    }
  }

  lemma DivMonotone(x: real, y: real, a: real)
    requires x <= y && a > 0.0
    ensures x / a <= y / a
  {
    assert (y - x) / a >= 0.0;
    assert y / a - x / a == (y - x) / a;
  }

  /**
   * Shrinking the query interval: a query ending at `s <= t_max` finds exactly
   * what the longer query found, when that lies no further than `s`.
   */
  lemma BallHitRestricts(lib: Numeric, center: Vec3, radius: real, mat: Material, r: Ray, tMin: Lo, tMax: Hi, s: Hi)
    requires lib.sqrt(Discriminant(center, radius, r)) >= 0.0
    requires HiLe(s, tMax)
    ensures BallHit(lib, center, radius, mat, r, tMin, s) == Restrict(BallHit(lib, center, radius, mat, r, tMin, tMax), s)
  {
    NearBeforeFar(lib, center, radius, r);
  }

  /** `a t^2 + 2 half_b t + c = 0` at both roots, when `sqrtd^2` is the discriminant. */
  lemma RootSolvesQuadratic(a: real, hb: real, c: real, sq: real, t: real)
    requires a != 0.0 && sq * sq == hb * hb - a * c
    requires t == (-hb - sq) / a || t == (-hb + sq) / a
    ensures a * (t * t) + 2.0 * hb * t + c == 0.0
  {
    var at := t * a;
    assert at == -hb - sq || at == -hb + sq;
    assert at * at + 2.0 * hb * at + a * c == 0.0;
    assert a * (a * (t * t) + 2.0 * hb * t + c) == at * at + 2.0 * hb * at + a * c;
  }

  /** `|oc + t d|^2 = |oc|^2 + 2 t (oc . d) + t^2 |d|^2`. */
  lemma ExpandAlongRay(oc: Vec3, d: Vec3, t: real)
    ensures LengthSquared(Add(oc, Scale(t, d))) == LengthSquared(oc) + 2.0 * t * Dot(oc, d) + (t * t) * LengthSquared(d)
  {
  }

  /** The point of a hit lies on the sphere, given the square-root axiom at the discriminant. */
  lemma BallHitOnSurface(lib: Numeric, center: Vec3, radius: real, mat: Material, r: Ray, tMin: Lo, tMax: Hi)
    requires SqrtAt(lib, Discriminant(center, radius, r)) && LengthSquared(r.dir) != 0.0
    requires BallHit(lib, center, radius, mat, r, tMin, tMax).Some?
    ensures var p := BallHit(lib, center, radius, mat, r, tMin, tMax).value.p;
      LengthSquared(Sub(p, center)) == radius * radius
  {
    var t := BallHit(lib, center, radius, mat, r, tMin, tMax).value.t;
    RootsSolveQuadratic(lib, center, radius, r, t);
    OnSurfaceAt(center, radius, r, t);
  }

  lemma RootsSolveQuadratic(lib: Numeric, center: Vec3, radius: real, r: Ray, t: real)
    requires SqrtAt(lib, Discriminant(center, radius, r)) && LengthSquared(r.dir) != 0.0
    requires Discriminant(center, radius, r) >= 0.0
    requires t == NearRoot(lib, center, radius, r) || t == FarRoot(lib, center, radius, r)
    ensures LengthSquared(r.dir) * (t * t) + 2.0 * HalfB(center, r) * t + CTerm(center, radius, r) == 0.0
  {
    RootSolvesQuadratic(LengthSquared(r.dir), HalfB(center, r), CTerm(center, radius, r),
                        lib.sqrt(Discriminant(center, radius, r)), t);
  }

  lemma OnSurfaceAt(center: Vec3, radius: real, r: Ray, t: real)
    requires LengthSquared(r.dir) * (t * t) + 2.0 * HalfB(center, r) * t + CTerm(center, radius, r) == 0.0
    ensures LengthSquared(Sub(At(r, t), center)) == radius * radius
  {
    var oc := Sub(r.orig, center);
    ExpandAlongRay(oc, r.dir, t);
    assert Sub(At(r, t), center) == Add(oc, Scale(t, r.dir));
  }

  /** The outward normal times the radius is the radial vector `p - center`. */
  lemma OutwardNormalTimesRadius(p: Vec3, center: Vec3, radius: real)
    requires radius != 0.0
    ensures Scale(radius, DivScalar(Sub(p, center), radius)) == Sub(p, center)
  {
    var d := Sub(p, center);
    MulSafeDiv(d.x, radius);
    MulSafeDiv(d.y, radius);
    MulSafeDiv(d.z, radius);
  }

  // ---- Bounding boxes ----

  /** The box `center -/+ (radius, radius, radius)` (lines 64-70). */
  function BallBox(center: Vec3, radius: real): (box: Aabb)
    ensures forall a: Axis :: Get(box.minimum, a) == Get(center, a) - radius && Get(box.maximum, a) == Get(center, a) + radius
  {
    var rr := Vec3(radius, radius, radius);
    NewAabb(Sub(center, rr), Add(center, rr))
  }

  /** A point on (or in) a sphere of non-negative radius lies in its box. */
  lemma BallBoxContains(center: Vec3, radius: real, p: Vec3)
    requires radius >= 0.0 && LengthSquared(Sub(p, center)) <= radius * radius
    ensures Contains(BallBox(center, radius), p)
  {
    var d := Sub(p, center);
    assert d.x * d.x >= 0.0 && d.y * d.y >= 0.0 && d.z * d.z >= 0.0;
    SquareBounds(d.x, radius);
    SquareBounds(d.y, radius);
    SquareBounds(d.z, radius);
  }

  lemma SquareBounds(x: real, r: real)
    requires r >= 0.0 && x * x <= r * r
    ensures -r <= x <= r
  {
    if x > r {
      SquareMonotone(r, x);
    } else if x < -r {
      SquareMonotone(r, -x);
    }
  }

  /** Squaring is strictly increasing on the non-negative reals. */
  lemma SquareMonotone(a: real, b: real)
    requires 0.0 <= a < b
    ensures a * a < b * b
  {
    ProductPositive(b - a, b + a);
  }

  lemma ProductPositive(x: real, y: real)
    requires x > 0.0 && y > 0.0
    ensures x * y > 0.0
  {
  }

  // ---- The moving sphere ----

  /**
   * `MovingSphere::center`: linear interpolation (and extrapolation) of the
   * centre in time; a zero time span divides by zero in the source and yields
   * `center0` here.
   */
  function Center(center0: Vec3, center1: Vec3, time0: real, time1: real, time: real): Vec3
  {
    Add(center0, Scale(SafeDiv(time - time0, time1 - time0), Sub(center1, center0)))
  }

  /** The centre is `center0` at `time0` and `center1` at `time1`. */
  lemma CenterAtEndpoints(center0: Vec3, center1: Vec3, time0: real, time1: real)
    requires time0 != time1
    ensures Center(center0, center1, time0, time1, time0) == center0
    ensures Center(center0, center1, time0, time1, time1) == center1
  {
    var d, v := time1 - time0, Sub(center1, center0);
    DivSelf(d);
    calc {
      Center(center0, center1, time0, time1, time1);
      Add(center0, Scale(SafeDiv(d, d), v));
      Add(center0, Scale(1.0, v));
      center1;
    }
    calc {
      Center(center0, center1, time0, time1, time0);
      Add(center0, Scale(SafeDiv(0.0, d), v));
      Add(center0, Scale(0.0, v));
      center0;
    }
  }

  lemma DivSelf(d: real)
    requires d != 0.0
    ensures SafeDiv(d, d) == 1.0 && SafeDiv(0.0, d) == 0.0
  {
  }

  /** `MovingSphere::bounding_box`: the box around the sphere at both times. */
  function MovingBallBox(center0: Vec3, center1: Vec3, time0: real, time1: real, radius: real, t0: real, t1: real)
    : (box: Aabb)
    ensures Encloses(box, BallBox(Center(center0, center1, time0, time1, t0), radius))
    ensures Encloses(box, BallBox(Center(center0, center1, time0, time1, t1), radius))
  {
    var box0 := BallBox(Center(center0, center1, time0, time1, t0), radius);
    var box1 := BallBox(Center(center0, center1, time0, time1, t1), radius);
    SurroundingBox(box0, box1)
  }
}
