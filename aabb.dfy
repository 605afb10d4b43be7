// raytracer/src/aabb.rs: axis-aligned bounding boxes, their union and the
// slab test, the latter exactly as the source writes it (see SlabStep) and
// as evidently intended (see FixedStep).
module Aabbs {
  import opened Vectors
  import opened Intervals
  import opened Rays

  datatype Aabb = Aabb(minimum: Vec3, maximum: Vec3)

  /** `Aabb::new` stores both corners unchanged. */
  function NewAabb(a: Vec3, b: Vec3): (box: Aabb)
    ensures box.minimum == a && box.maximum == b
  {
    Aabb(a, b)
  }

  /** `outer` contains `inner` on every axis. */
  ghost predicate Encloses(outer: Aabb, inner: Aabb)
  {
    forall a: Axis ::
      Get(outer.minimum, a) <= Get(inner.minimum, a) && Get(inner.maximum, a) <= Get(outer.maximum, a)
  }

  /** The point `p` lies in the closed box. */
  ghost predicate Contains(box: Aabb, p: Vec3)
  {
    forall a: Axis :: Get(box.minimum, a) <= Get(p, a) <= Get(box.maximum, a)
  }

  /** `minimum <= maximum` on every axis. */
  ghost predicate Proper(box: Aabb)
  {
    forall a: Axis :: Get(box.minimum, a) <= Get(box.maximum, a)
  }

  /**
   * `Aabb::surrounding_box`: encloses both boxes, and each of its faces is a
   * face of one of them, so no smaller box encloses both (SurroundingIsSmallest).
   */
  function SurroundingBox(box0: Aabb, box1: Aabb): (r: Aabb)
    ensures Encloses(r, box0) && Encloses(r, box1)
    ensures forall a: Axis ::
      (Get(r.minimum, a) == Get(box0.minimum, a) || Get(r.minimum, a) == Get(box1.minimum, a)) &&
      (Get(r.maximum, a) == Get(box0.maximum, a) || Get(r.maximum, a) == Get(box1.maximum, a))
  {
    var small := Vec3(Min(box0.minimum.x, box1.minimum.x),
                      Min(box0.minimum.y, box1.minimum.y),
                      Min(box0.minimum.z, box1.minimum.z));
    var big := Vec3(Max(box0.maximum.x, box1.maximum.x),
                    Max(box0.maximum.y, box1.maximum.y),
                    Max(box0.maximum.z, box1.maximum.z));
    NewAabb(small, big)
  }

  lemma SurroundingIsSmallest(box0: Aabb, box1: Aabb, c: Aabb)
    requires Encloses(c, box0) && Encloses(c, box1)
    ensures Encloses(c, SurroundingBox(box0, box1))
  {
    var s := SurroundingBox(box0, box1);
    forall a: Axis
      ensures Get(c.minimum, a) <= Get(s.minimum, a) && Get(s.maximum, a) <= Get(c.maximum, a)
    {
    }
  }

  lemma SurroundingCommutes(box0: Aabb, box1: Aabb)
    ensures SurroundingBox(box0, box1) == SurroundingBox(box1, box0)
  {
  }

  lemma SurroundingAssociates(b0: Aabb, b1: Aabb, b2: Aabb)
    ensures SurroundingBox(SurroundingBox(b0, b1), b2) == SurroundingBox(b0, SurroundingBox(b1, b2))
  {
  }

  lemma SurroundingIdempotent(b: Aabb)
    ensures SurroundingBox(b, b) == b
  {
  }

  lemma SurroundingProper(box0: Aabb, box1: Aabb)
    requires Proper(box0)
    ensures Proper(SurroundingBox(box0, box1))
  {
    var s := SurroundingBox(box0, box1);
    forall a: Axis ensures Get(s.minimum, a) <= Get(s.maximum, a) {
      assert Get(box0.minimum, a) <= Get(box0.maximum, a);
    }
  }

  // ---- The slab test ----

  /**
   * The distances at which the ray crosses the two planes of axis `a`,
   * swapped when `1/dir[a]` is negative: `(t0, t1)` after line 25.
   */
  function SlabDistances(box: Aabb, r: Ray, a: Axis): (real, real)
  {
    Crossings(Get(box.minimum, a), Get(box.maximum, a), Get(r.orig, a), Get(r.dir, a))
  }

  /** Lines 20-25 on one axis: planes at `m` and `mx`, origin `o`, direction `d`. */
  function Crossings(m: real, mx: real, o: real, d: real): (real, real)
  {
    var invd := SafeDiv(1.0, d);
    var t0 := (m - o) * invd;
    var t1 := (mx - o) * invd;
    if invd < 0.0 then (t1, t0) else (t0, t1)
  }

  lemma SlabDistancesOrdered(box: Aabb, r: Ray, a: Axis)
    requires Get(box.minimum, a) <= Get(box.maximum, a) && Get(r.dir, a) != 0.0
    ensures SlabDistances(box, r, a).0 <= SlabDistances(box, r, a).1
  {
    var invd := 1.0 / Get(r.dir, a);
    var d := Get(box.maximum, a) - Get(box.minimum, a);
    assert (Get(box.maximum, a) - Get(r.orig, a)) * invd - (Get(box.minimum, a) - Get(r.orig, a)) * invd == d * invd;
    if invd < 0.0 {
      assert d * invd <= 0.0;
    } else {
      assert d * invd >= 0.0;
    }
  }

  /**
   * One pass of the loop body over axis `a`, as written: the running
   * `t_min` becomes the larger of itself and `t0`; the running `t_max`
   * becomes `t1` when it was larger than `t1`, and otherwise takes the new
   * `t_min` (line 27; `t_max.min(t1)` was evidently meant). Both are finite
   * afterwards.
   */
  function SlabStep(box: Aabb, r: Ray, a: Axis, tMin: Lo, tMax: Hi): (real, real)
  {
    var (t0, t1) := SlabDistances(box, r, a);
    var newMin := if tMin.LoFin? && tMin.lo > t0 then tMin.lo else t0;
    var newMax := if tMax.PosInf? || tMax.hi > t1 then t1 else newMin;
    (newMin, newMax)
  }

  /** The running `t_min` never decreases, and it is at least `t0`. */
  lemma StepRaisesMin(box: Aabb, r: Ray, a: Axis, tMin: Lo, tMax: Hi)
    ensures AboveLo(SlabStep(box, r, a, tMin, tMax).0, tMin)
    ensures SlabStep(box, r, a, tMin, tMax).0 >= SlabDistances(box, r, a).0
  {
  }

  /** As written, an axis whose far distance is not below the running `t_max` rejects the box. */
  lemma StepRejectsFarExit(box: Aabb, r: Ray, a: Axis, tMin: Lo, tMax: Hi)
    requires !(tMax.PosInf? || tMax.hi > SlabDistances(box, r, a).1)
    ensures SlabStep(box, r, a, tMin, tMax).1 <= SlabStep(box, r, a, tMin, tMax).0
  {
  }

  /** The slab test from axis `a` on, with running bounds `tMin`, `tMax`. */
  predicate SlabsFrom(box: Aabb, r: Ray, a: int, tMin: Lo, tMax: Hi)
    requires 0 <= a <= 3
    decreases 3 - a
  {
    if a == 3 then true
    else
      var (lo, hi) := SlabStep(box, r, a, tMin, tMax);
      if hi <= lo then false else SlabsFrom(box, r, a + 1, LoFin(lo), HiFin(hi))
  }

  /** The value `Aabb::hit` returns. */
  predicate SlabHit(box: Aabb, r: Ray, tMin: Lo, tMax: Hi)
  {
    SlabsFrom(box, r, 0, tMin, tMax)
  }

  /** `Aabb::hit`: the loop over the three axes, narrowing `t_min` and `t_max`. */
  method Hit(box: Aabb, r: Ray, tMin: Lo, tMax: Hi) returns (hit: bool)
    ensures hit == SlabHit(box, r, tMin, tMax)
  {
    var lo, hi := tMin, tMax;
    for a := 0 to 3
      invariant SlabsFrom(box, r, a, lo, hi) == SlabHit(box, r, tMin, tMax)
    {
      var (t0, t1) := SlabDistances(box, r, a);
      var newMin := if lo.LoFin? && lo.lo > t0 then lo.lo else t0;
      var newMax := if hi.PosInf? || hi.hi > t1 then t1 else newMin;
      if newMax <= newMin {
        return false;
      }
      lo, hi := LoFin(newMin), HiFin(newMax);
    }
    return true;
  }

  /**
   * Consequence of line 27: the test passes only if the far distances of the
   * three axes lie strictly below `t_max` and strictly decrease from x to y to z.
   */
  lemma SlabHitNeedsDecreasingExits(box: Aabb, r: Ray, tMin: Lo, tMax: Hi)
    requires SlabHit(box, r, tMin, tMax)
    ensures tMax.PosInf? || SlabDistances(box, r, 0).1 < tMax.hi
    ensures SlabDistances(box, r, 1).1 < SlabDistances(box, r, 0).1
    ensures SlabDistances(box, r, 2).1 < SlabDistances(box, r, 1).1
  {
    var (lo0, hi0) := SlabStep(box, r, 0, tMin, tMax);
    assert hi0 > lo0;
    assert hi0 == SlabDistances(box, r, 0).1;
    var (lo1, hi1) := SlabStep(box, r, 1, LoFin(lo0), HiFin(hi0));
    assert hi1 > lo1;
    assert hi1 == SlabDistances(box, r, 1).1;
    var (lo2, hi2) := SlabStep(box, r, 2, LoFin(lo1), HiFin(hi1));
    assert hi2 > lo2;
  }

  /**
   * A ray along the diagonal of the unit box passes through its centre at
   * t = 1.5, inside [0, +inf), yet the test as written rejects the box: the far
   * distances of all three axes are equal.
   */
  lemma DiagonalRayRejected()
    ensures Contains(Aabb(Zero, One), At(Ray(Vec3(-1.0, -1.0, -1.0), One, 0.0), 1.5))
    ensures !SlabHit(Aabb(Zero, One), Ray(Vec3(-1.0, -1.0, -1.0), One, 0.0), LoFin(0.0), PosInf)
  {
    var box, r := Aabb(Zero, One), Ray(Vec3(-1.0, -1.0, -1.0), One, 0.0);
    var p := At(r, 1.5);
    assert p == Vec3(0.5, 0.5, 0.5);
    assert SlabDistances(box, r, 0) == (1.0, 2.0);
    assert SlabDistances(box, r, 1) == (1.0, 2.0);
    assert SlabStep(box, r, 0, LoFin(0.0), PosInf) == (1.0, 2.0);
    assert SlabStep(box, r, 1, LoFin(1.0), HiFin(2.0)) == (1.0, 1.0);
  }

  // ---- The slab test as intended ----

  /**
   * Line 27 as evidently intended: the running `t_max` becomes the smaller
   * of itself and `t1`. The running `t_min` is narrowed as before.
   */
  function FixedStep(box: Aabb, r: Ray, a: Axis, tMin: Lo, tMax: Hi): (real, real)
  {
    var (t0, t1) := SlabDistances(box, r, a);
    var newMin := if tMin.LoFin? && tMin.lo > t0 then tMin.lo else t0;
    var newMax := if tMax.PosInf? || tMax.hi > t1 then t1 else tMax.hi;
    (newMin, newMax)
  }

  /** The intended slab test from axis `a` on. */
  predicate FixedSlabsFrom(box: Aabb, r: Ray, a: int, tMin: Lo, tMax: Hi)
    requires 0 <= a <= 3
    decreases 3 - a
  {
    if a == 3 then true
    else
      var (lo, hi) := FixedStep(box, r, a, tMin, tMax);
      if hi <= lo then false else FixedSlabsFrom(box, r, a + 1, LoFin(lo), HiFin(hi))
  }

  /** The value the intended `Aabb::hit` returns. */
  predicate FixedSlabHit(box: Aabb, r: Ray, tMin: Lo, tMax: Hi)
  {
    FixedSlabsFrom(box, r, 0, tMin, tMax)
  }

  /** The intended `Aabb::hit`: the same loop with `t_max` narrowed to the smaller bound. */
  method FixedHit(box: Aabb, r: Ray, tMin: Lo, tMax: Hi) returns (hit: bool)
    ensures hit <==> exists t :: CrossesInside(box, r, tMin, tMax, t)
  {
    var lo, hi := tMin, tMax;
    for a := 0 to 3
      invariant FixedSlabsFrom(box, r, a, lo, hi) == FixedSlabHit(box, r, tMin, tMax)
    {
      var (t0, t1) := SlabDistances(box, r, a);
      var newMin := if lo.LoFin? && lo.lo > t0 then lo.lo else t0;
      var newMax := if hi.PosInf? || hi.hi > t1 then t1 else hi.hi;
      if newMax <= newMin {
        FixedSlabHitMeansCrossing(box, r, tMin, tMax);
        return false;
      }
      lo, hi := LoFin(newMin), HiFin(newMax);
    }
    FixedSlabHitMeansCrossing(box, r, tMin, tMax);
    return true;
  }

  /** `t` lies strictly between the two crossings of axis `a`. */
  predicate InsideSlab(box: Aabb, r: Ray, a: Axis, t: real)
  {
    SlabDistances(box, r, a).0 < t < SlabDistances(box, r, a).1
  }

  /** `t` lies strictly inside the query interval and strictly inside every slab. */
  predicate CrossesInside(box: Aabb, r: Ray, tMin: Lo, tMax: Hi, t: real)
  {
    (tMin.NegInf? || tMin.lo < t) && (tMax.PosInf? || t < tMax.hi)
      && InsideSlab(box, r, 0, t) && InsideSlab(box, r, 1, t) && InsideSlab(box, r, 2, t)
  }

  /** From axis `a` on, a distance inside the running bounds and the remaining slabs passes. */
  lemma {:induction false} FixedSlabsFromAdmits(box: Aabb, r: Ray, a: int, tMin: Lo, tMax: Hi, t: real)
    requires 0 <= a <= 3
    requires (tMin.NegInf? || tMin.lo < t) && (tMax.PosInf? || t < tMax.hi)
    requires forall b: Axis :: a <= b ==> InsideSlab(box, r, b, t)
    ensures FixedSlabsFrom(box, r, a, tMin, tMax)
    decreases 3 - a
  {
    if a < 3 {
      assert InsideSlab(box, r, a, t);
      var (lo, hi) := FixedStep(box, r, a, tMin, tMax);
      assert lo < t < hi;
      FixedSlabsFromAdmits(box, r, a + 1, LoFin(lo), HiFin(hi), t);
    }
  }

  /** From axis `a` on, a passing test leaves a distance inside the running bounds and the remaining slabs. */
  lemma {:induction false} FixedSlabsFromFinds(box: Aabb, r: Ray, a: int, tMin: Lo, tMax: Hi) returns (t: real)
    requires 0 <= a < 3 && FixedSlabsFrom(box, r, a, tMin, tMax)
    ensures (tMin.NegInf? || tMin.lo < t) && (tMax.PosInf? || t < tMax.hi)
    ensures forall b: Axis :: a <= b ==> InsideSlab(box, r, b, t)
    decreases 3 - a
  {
    var (t0, t1) := SlabDistances(box, r, a);
    var (lo, hi) := FixedStep(box, r, a, tMin, tMax);
    assert t0 <= lo < hi <= t1;
    if a == 2 {
      t := (lo + hi) / 2.0;
    } else {
      t := FixedSlabsFromFinds(box, r, a + 1, LoFin(lo), HiFin(hi));
    }
    assert InsideSlab(box, r, a, t);
  }

  /**
   * The intended test is exact on the slab distances: it passes if and only
   * if some distance strictly inside the query interval lies strictly inside
   * all three slabs.
   */
  lemma FixedSlabHitMeansCrossing(box: Aabb, r: Ray, tMin: Lo, tMax: Hi)
    ensures FixedSlabHit(box, r, tMin, tMax) <==> exists t :: CrossesInside(box, r, tMin, tMax, t)
  {
    if FixedSlabHit(box, r, tMin, tMax) {
      var t := FixedSlabsFromFinds(box, r, 0, tMin, tMax);
      assert CrossesInside(box, r, tMin, tMax, t);
    }
    if t :| CrossesInside(box, r, tMin, tMax, t) {
      FixedSlabsFromAdmits(box, r, 0, tMin, tMax, t);
    }
  }

  /** `x / d < t` and `t < x / d` in terms of `x` and `t * d`, for either sign of `d`. */
  lemma CompareQuotient(x: real, d: real, t: real)
    requires d != 0.0
    ensures d > 0.0 ==> (x * (1.0 / d) < t <==> x < t * d) && (t < x * (1.0 / d) <==> t * d < x)
    ensures d < 0.0 ==> (x * (1.0 / d) < t <==> t * d < x) && (t < x * (1.0 / d) <==> x < t * d)
  {
    var q := x * (1.0 / d);
    assert q * d == x;
    if d > 0.0 {
      assert q < t <==> q * d < t * d;
    } else {
      assert q < t <==> q * d > t * d;
    }
  }

  /** A positive direction keeps the planes' order, a negative one swaps it. */
  lemma CrossingsOrder(m: real, mx: real, o: real, d: real)
    requires d != 0.0
    ensures d > 0.0 ==> Crossings(m, mx, o, d).0 == (m - o) * (1.0 / d) && Crossings(m, mx, o, d).1 == (mx - o) * (1.0 / d)
    ensures d < 0.0 ==> Crossings(m, mx, o, d).0 == (mx - o) * (1.0 / d) && Crossings(m, mx, o, d).1 == (m - o) * (1.0 / d)
  {
    var invd := 1.0 / d;
    assert SafeDiv(1.0, d) == invd && invd * d == 1.0;
    if d < 0.0 {
      assert invd < 0.0;
    } else {
      assert invd > 0.0;
    }
  }

  /** Strictly between the two crossings exactly when strictly between the two planes. */
  lemma InsideCrossings(m: real, mx: real, o: real, d: real, t: real, p: real)
    requires d != 0.0 && p == o + t * d
    ensures Crossings(m, mx, o, d).0 < t < Crossings(m, mx, o, d).1 <==> m < p < mx
  {
    CrossingsOrder(m, mx, o, d);
    CompareQuotient(m - o, d, t);
    CompareQuotient(mx - o, d, t);
  }

  lemma AtOnAxis(r: Ray, t: real, a: Axis)
    ensures Get(At(r, t), a) == Get(r.orig, a) + t * Get(r.dir, a)
  {
  }

  /**
   * For a direction with no zero component, `t` is strictly inside the slab
   * of axis `a` exactly when the point of the ray at `t` is strictly between
   * the box's two planes of that axis.
   */
  lemma InsideSlabIsInsideBox(box: Aabb, r: Ray, a: Axis, t: real)
    requires Get(r.dir, a) != 0.0
    ensures InsideSlab(box, r, a, t)
      <==> Get(box.minimum, a) < Get(At(r, t), a) < Get(box.maximum, a)
  {
    AtOnAxis(r, t, a);
    InsideCrossings(Get(box.minimum, a), Get(box.maximum, a), Get(r.orig, a), Get(r.dir, a), t, Get(At(r, t), a));
  }

  /** `p` lies strictly between the box's two planes on every axis. */
  ghost predicate Interior(box: Aabb, p: Vec3)
  {
    forall a: Axis :: Get(box.minimum, a) < Get(p, a) < Get(box.maximum, a)
  }

  /**
   * For a direction with no zero component, the intended test passes exactly
   * when the ray is strictly inside the box at some distance strictly inside
   * the query interval.
   */
  lemma FixedSlabHitIsInteriorCrossing(box: Aabb, r: Ray, tMin: Lo, tMax: Hi)
    requires r.dir.x != 0.0 && r.dir.y != 0.0 && r.dir.z != 0.0
    ensures FixedSlabHit(box, r, tMin, tMax)
      <==> exists t :: (tMin.NegInf? || tMin.lo < t) && (tMax.PosInf? || t < tMax.hi) && Interior(box, At(r, t))
  {
    FixedSlabHitMeansCrossing(box, r, tMin, tMax);
    forall t ensures CrossesInside(box, r, tMin, tMax, t)
      <==> (tMin.NegInf? || tMin.lo < t) && (tMax.PosInf? || t < tMax.hi) && Interior(box, At(r, t))
    {
      InsideSlabIsInsideBox(box, r, 0, t);
      InsideSlabIsInsideBox(box, r, 1, t);
      InsideSlabIsInsideBox(box, r, 2, t);
    }
  }

  /** Every box the test as written admits, the intended test admits. */
  lemma {:induction false} SlabsFromImpliesFixed(box: Aabb, r: Ray, a: int, tMin: Lo, tMax: Hi)
    requires 0 <= a <= 3 && SlabsFrom(box, r, a, tMin, tMax)
    ensures FixedSlabsFrom(box, r, a, tMin, tMax)
    decreases 3 - a
  {
    if a < 3 {
      var (lo, hi) := SlabStep(box, r, a, tMin, tMax);
      assert FixedStep(box, r, a, tMin, tMax) == (lo, hi);
      SlabsFromImpliesFixed(box, r, a + 1, LoFin(lo), HiFin(hi));
    }
  }

  /**
   * The test as written never admits a box the ray misses: when it passes,
   * some distance inside the query interval lies inside all three slabs.
   */
  lemma SlabHitMeansCrossing(box: Aabb, r: Ray, tMin: Lo, tMax: Hi)
    requires SlabHit(box, r, tMin, tMax)
    ensures exists t :: CrossesInside(box, r, tMin, tMax, t)
  {
    SlabsFromImpliesFixed(box, r, 0, tMin, tMax);
    FixedSlabHitMeansCrossing(box, r, tMin, tMax);
  }

  /** The intended test admits the diagonal ray that the test as written rejects. */
  lemma DiagonalRayAdmitted()
    ensures FixedSlabHit(Aabb(Zero, One), Ray(Vec3(-1.0, -1.0, -1.0), One, 0.0), LoFin(0.0), PosInf)
  {
    var box, r := Aabb(Zero, One), Ray(Vec3(-1.0, -1.0, -1.0), One, 0.0);
    assert SlabDistances(box, r, 0) == (1.0, 2.0);
    assert SlabDistances(box, r, 1) == (1.0, 2.0);
    assert SlabDistances(box, r, 2) == (1.0, 2.0);
    FixedSlabsFromAdmits(box, r, 0, LoFin(0.0), PosInf, 1.5);
  }
}
