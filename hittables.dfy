// The `Hittable::hit` and `Hittable::bounding_box` implementations of every
// scene object, dispatched on the variant: spheres (sphere.rs), rectangles
// (aarect.rs), boxes (bbox.rs), constant media (constant_medium.rs), lists
// (hittable_list.rs) and BVH nodes (bvh.rs). The list scan is ScanState, the
// value the loop of HittableLists.HittableList.Hit computes.
module Hittables {
  import opened Vectors
  import opened Intervals
  import opened Rays
  import opened Aabbs
  import opened HitRecords
  import opened Scene
  import opened Wrappers
  import Spheres
  import AaRects
  import ConstantMedium

  /** The distance past the first boundary hit where the medium looks for the second (line 47). */
  const ExitGap: real := 0.0001

  /**
   * `hit(r, t_min, t_max)` of a scene object. `rbg` is the uniform draw that
   * every constant medium met during this query uses.
   */
  function Hit(lib: Numeric, h: Hittable, r: Ray, tMin: Lo, tMax: Hi, rbg: real): Option<HitRecord>
    decreases h, 0
  {
    match h
    case Sphere(center, radius, mat) =>
      Spheres.BallHit(lib, center, radius, mat, r, tMin, tMax)
    case MovingSphere(center0, center1, time0, time1, radius, mat) =>
      Spheres.BallHit(lib, Spheres.Center(center0, center1, time0, time1, r.tm), radius, mat, r, tMin, tMax)
    case Rect(plane, a0, a1, b0, b1, k, mat) =>
      AaRects.RectHit(plane, a0, a1, b0, b1, k, mat, r, tMin, tMax)
    case Box(_, _, sides) =>
      ScanState(lib, sides, |sides|, r, tMin, tMax, rbg)
    case Medium(boundary, phase, negInvDensity) =>
      var rec1 := Hit(lib, boundary, r, NegInf, PosInf, rbg);
      if rec1.None? then None
      else
        var rec2 := Hit(lib, boundary, r, LoFin(rec1.value.t + ExitGap), PosInf, rbg);
        if rec2.None? then None
        else ConstantMedium.MediumInterior(lib, rec1.value, rec2.value, r, tMin, tMax, negInvDensity, phase, rbg)
    case List(objects) =>
      ScanState(lib, objects, |objects|, r, tMin, tMax, rbg)
    case BvhNode(left, right, box) =>
      if !SlabHit(box, r, tMin, tMax) then None
      else Combine(Hit(lib, left, r, tMin, tMax, rbg), Hit(lib, right, r, tMin, tMax, rbg))
  }

  /** The upper end of the query after a hit: `closest_so_far`. */
  function ClosestOf(acc: Option<HitRecord>, tMax: Hi): Hi
  {
    if acc.Some? then HiFin(acc.value.t) else tMax
  }

  /**
   * `hit_anything` after the scan of `HittableList::hit` has visited the first
   * `n` objects: each object is queried up to the closest hit so far and
   * replaces it when it hits.
   */
  function ScanState(lib: Numeric, objs: seq<Hittable>, n: nat, r: Ray, tMin: Lo, tMax: Hi, rbg: real)
    : Option<HitRecord>
    requires n <= |objs|
    decreases objs, n
  {
    if n == 0 then None
    else
      var acc := ScanState(lib, objs, n - 1, r, tMin, tMax, rbg);
      var hitRec := Hit(lib, objs[n - 1], r, tMin, ClosestOf(acc, tMax), rbg);
      if hitRec.Some? then hitRec else acc
  }

  /** `HittableList::hit`: the scan over all objects. */
  function ListHit(lib: Numeric, objs: seq<Hittable>, r: Ray, tMin: Lo, tMax: Hi, rbg: real): (res: Option<HitRecord>)
    ensures |objs| == 0 ==> res.None?
  {
    ScanState(lib, objs, |objs|, r, tMin, tMax, rbg)
  }

  /** Lines 79-90 of bvh.rs: the left hit when strictly nearer, the right hit otherwise. */
  function Combine(hitLeft: Option<HitRecord>, hitRight: Option<HitRecord>): (res: Option<HitRecord>)
    ensures res.None? <==> hitLeft.None? && hitRight.None?
    ensures res.Some? ==> res == hitLeft || res == hitRight
    ensures hitLeft.Some? && hitRight.Some? ==>
      res == (if hitLeft.value.t < hitRight.value.t then hitLeft else hitRight)
  {
    match (hitLeft, hitRight)
    case (Some(l), Some(rt)) => if l.t < rt.t then Some(l) else Some(rt)
    case (Some(l), None) => Some(l)
    case (None, Some(rt)) => Some(rt)
    case (None, None) => None
  }

  /** A BVH node whose box the ray fails to enter reports no hit, whatever its children. */
  lemma BvhMissSkipsChildren(lib: Numeric, left: Hittable, right: Hittable, box: Aabb, r: Ray, tMin: Lo, tMax: Hi, rbg: real)
    requires !SlabHit(box, r, tMin, tMax)
    ensures Hit(lib, BvhNode(left, right, box), r, tMin, tMax, rbg).None?
  {
  }

  /** A box hits exactly what the scan of its six sides hits. */
  lemma BoxHitIsSidesScan(lib: Numeric, boxMin: Vec3, boxMax: Vec3, sides: seq<Hittable>, r: Ray, tMin: Lo, tMax: Hi, rbg: real)
    ensures Hit(lib, Box(boxMin, boxMax, sides), r, tMin, tMax, rbg) == ListHit(lib, sides, r, tMin, tMax, rbg)
  {
  }

  /**
   * Lines 46-47 and 102-107 of constant_medium.rs: without a first boundary
   * hit over the whole line, or a second one past it, the medium is missed.
   */
  lemma MediumNeedsTwoBoundaryHits(lib: Numeric, boundary: Hittable, phase: Material, negInvDensity: real,
                                   r: Ray, tMin: Lo, tMax: Hi, rbg: real)
    requires var rec1 := Hit(lib, boundary, r, NegInf, PosInf, rbg);
      rec1.None? || Hit(lib, boundary, r, LoFin(rec1.value.t + ExitGap), PosInf, rbg).None?
    ensures Hit(lib, Medium(boundary, phase, negInvDensity), r, tMin, tMax, rbg).None?
  {
  }

  // ---- Returned distances lie in the query interval ----

  /** Every constant medium in the scene has a non-negative density (`neg_inv_density <= 0`). */
  predicate MediaDense(h: Hittable)
    decreases h
  {
    match h
    case Box(_, _, sides) => forall i :: 0 <= i < |sides| ==> MediaDense(sides[i])
    case Medium(boundary, _, negInvDensity) => negInvDensity <= 0.0 && MediaDense(boundary)
    case List(objects) => forall i :: 0 <= i < |objects| ==> MediaDense(objects[i])
    case BvhNode(left, right, _) => MediaDense(left) && MediaDense(right)
    case _ => true
  }

  /**
   * A hit always lies in the query interval, for a ray of non-zero length and
   * a draw whose logarithm is not positive (`rbg` in (0, 1]).
   */
  lemma {:induction false} HitInInterval(lib: Numeric, h: Hittable, r: Ray, tMin: Lo, tMax: Hi, rbg: real)
    requires MediaDense(h) && lib.ln(rbg) <= 0.0 && Length(lib, r.dir) > 0.0
    requires Hit(lib, h, r, tMin, tMax, rbg).Some?
    ensures InInterval(Hit(lib, h, r, tMin, tMax, rbg).value.t, tMin, tMax)
    decreases h, 0
  {
    match h
    case Sphere(_, _, _) =>
    case MovingSphere(_, _, _, _, _, _) =>
    case Rect(_, _, _, _, _, _, _) =>
    case Box(_, _, sides) =>
      ScanInInterval(lib, sides, |sides|, r, tMin, tMax, rbg);
    case Medium(boundary, phase, negInvDensity) =>
      var rec1 := Hit(lib, boundary, r, NegInf, PosInf, rbg).value;
      var rec2 := Hit(lib, boundary, r, LoFin(rec1.t + ExitGap), PosInf, rbg).value;
      ConstantMedium.MediumHitInSegment(lib, rec1, rec2, r, tMin, tMax, negInvDensity, phase, rbg);
    case List(objects) =>
      ScanInInterval(lib, objects, |objects|, r, tMin, tMax, rbg);
    case BvhNode(left, right, _) =>
      var hl, hr := Hit(lib, left, r, tMin, tMax, rbg), Hit(lib, right, r, tMin, tMax, rbg);
      if hl.Some? {
        HitInInterval(lib, left, r, tMin, tMax, rbg);
      }
      if hr.Some? {
        HitInInterval(lib, right, r, tMin, tMax, rbg);
      }
  }

  /** The scan's hit lies in `[t_min, t_max]`: each object is queried within a prefix of it. */
  lemma {:induction false} ScanInInterval(lib: Numeric, objs: seq<Hittable>, n: nat, r: Ray, tMin: Lo, tMax: Hi, rbg: real)
    requires n <= |objs|
    requires forall i :: 0 <= i < |objs| ==> MediaDense(objs[i])
    requires lib.ln(rbg) <= 0.0 && Length(lib, r.dir) > 0.0
    requires ScanState(lib, objs, n, r, tMin, tMax, rbg).Some?
    ensures InInterval(ScanState(lib, objs, n, r, tMin, tMax, rbg).value.t, tMin, tMax)
    decreases objs, n
  {
    var acc := ScanState(lib, objs, n - 1, r, tMin, tMax, rbg);
    var closest := ClosestOf(acc, tMax);
    if acc.Some? {
      ScanInInterval(lib, objs, n - 1, r, tMin, tMax, rbg);
    }
    var hitRec := Hit(lib, objs[n - 1], r, tMin, closest, rbg);
    if hitRec.Some? {
      HitInInterval(lib, objs[n - 1], r, tMin, closest, rbg);
      BelowHiMono(hitRec.value.t, closest, tMax);
    }
  }

  // ---- The scan returns the closest hit ----

  /**
   * The reference for the scan: of the current choice `acc` and a new hit,
   * keep the new one unless it is strictly farther. Folded over the objects'
   * own hits over the whole interval, this picks the minimum `t` and, among
   * equal minima, the last.
   */
  function Pick(acc: Option<HitRecord>, h: Option<HitRecord>): (res: Option<HitRecord>)
    ensures res.None? <==> acc.None? && h.None?
    ensures res.Some? ==> res == acc || res == h
    ensures res.Some? && acc.Some? ==> res.value.t <= acc.value.t
    ensures res.Some? && h.Some? ==> res.value.t <= h.value.t
    ensures h.Some? && acc.Some? && h.value.t <= acc.value.t ==> res == h
    ensures h.Some? && acc.None? ==> res == h
  {
    if h.Some? && (acc.None? || h.value.t <= acc.value.t) then h else acc
  }

  /** Choosing the nearer of two results does not depend on how the choices are grouped. */
  lemma PickAssociates(a: Option<HitRecord>, b: Option<HitRecord>, c: Option<HitRecord>)
    ensures Pick(Pick(a, b), c) == Pick(a, Pick(b, c))
  {
  }

  /** The BVH node's choice between its children is Pick. */
  lemma CombineIsPick(hitLeft: Option<HitRecord>, hitRight: Option<HitRecord>)
    ensures Combine(hitLeft, hitRight) == Pick(hitLeft, hitRight)
  {
  }

  /** Restricting the choice to `s` is the choice among the restricted results. */
  lemma PickRestrict(acc: Option<HitRecord>, h: Option<HitRecord>, s: Hi)
    ensures Pick(Restrict(acc, s), Restrict(h, s)) == Restrict(Pick(acc, h), s)
  {
  }

  /** Pick folded over the objects' hits over the whole query interval. */
  function Closest(lib: Numeric, objs: seq<Hittable>, r: Ray, tMin: Lo, tMax: Hi, rbg: real): Option<HitRecord>
    decreases |objs|
  {
    if |objs| == 0 then None
    else Pick(Closest(lib, objs[..|objs| - 1], r, tMin, tMax, rbg), Hit(lib, objs[|objs| - 1], r, tMin, tMax, rbg))
  }

  /**
   * Closest is what its name says: no hit exactly when no object hits, and
   * otherwise the hit of one of the objects, with a `t` no larger than any
   * object's hit.
   */
  lemma {:induction false} ClosestIsMinimum(lib: Numeric, objs: seq<Hittable>, r: Ray, tMin: Lo, tMax: Hi, rbg: real)
    ensures var c := Closest(lib, objs, r, tMin, tMax, rbg);
      (c.None? <==> forall o :: o in objs ==> Hit(lib, o, r, tMin, tMax, rbg).None?) &&
      (c.Some? ==> exists o :: o in objs && c == Hit(lib, o, r, tMin, tMax, rbg)) &&
      (forall o :: o in objs && Hit(lib, o, r, tMin, tMax, rbg).Some? ==> c.Some? && c.value.t <= Hit(lib, o, r, tMin, tMax, rbg).value.t)
    decreases |objs|
  {
    if |objs| > 0 {
      var init, last := objs[..|objs| - 1], objs[|objs| - 1];
      ClosestIsMinimum(lib, init, r, tMin, tMax, rbg);
      assert objs == init + [last];
      var c := Closest(lib, objs, r, tMin, tMax, rbg);
      if c.Some? {
        if c == Hit(lib, last, r, tMin, tMax, rbg) {
          assert last in objs;
        } else {
          var o :| o in init && Closest(lib, init, r, tMin, tMax, rbg) == Hit(lib, o, r, tMin, tMax, rbg);
          assert o in objs;
        }
      }
    }
  }

  /** On a concatenation, Closest is the nearer of the two parts' results (the later part winning ties). */
  lemma {:induction false} ClosestAppend(lib: Numeric, a: seq<Hittable>, b: seq<Hittable>, r: Ray, tMin: Lo, tMax: Hi, rbg: real)
    ensures Closest(lib, a + b, r, tMin, tMax, rbg)
         == Pick(Closest(lib, a, r, tMin, tMax, rbg), Closest(lib, b, r, tMin, tMax, rbg))
    decreases |b|
  {
    if |b| == 0 {
      assert a + b == a;
    } else {
      var b0, last := b[..|b| - 1], b[|b| - 1];
      assert (a + b)[..|a + b| - 1] == a + b0;
      assert (a + b)[|a + b| - 1] == last;
      ClosestAppend(lib, a, b0, r, tMin, tMax, rbg);
      PickAssociates(Closest(lib, a, r, tMin, tMax, rbg), Closest(lib, b0, r, tMin, tMax, rbg),
                     Hit(lib, last, r, tMin, tMax, rbg));
    }
  }

  /** The distance of the closest hit depends only on which objects there are, not on their order. */
  lemma ClosestDistanceOrderFree(lib: Numeric, a: seq<Hittable>, b: seq<Hittable>, r: Ray, tMin: Lo, tMax: Hi, rbg: real)
    requires multiset(a) == multiset(b)
    ensures Closest(lib, a, r, tMin, tMax, rbg).None? == Closest(lib, b, r, tMin, tMax, rbg).None?
    ensures Closest(lib, a, r, tMin, tMax, rbg).Some? ==>
      Closest(lib, a, r, tMin, tMax, rbg).value.t == Closest(lib, b, r, tMin, tMax, rbg).value.t
  {
    ClosestIsMinimum(lib, a, r, tMin, tMax, rbg);
    ClosestIsMinimum(lib, b, r, tMin, tMax, rbg);
    forall o ensures o in a <==> o in b {
      assert o in a <==> o in multiset(a);
      assert o in b <==> o in multiset(b);
    }
    var ca, cb := Closest(lib, a, r, tMin, tMax, rbg), Closest(lib, b, r, tMin, tMax, rbg);
    if ca.Some? {
      var oa :| oa in a && ca == Hit(lib, oa, r, tMin, tMax, rbg);
      var ob :| ob in b && cb == Hit(lib, ob, r, tMin, tMax, rbg);
      assert oa in b && ob in a;
    }
  }

  /**
   * The assumption under which a scan is a minimum: querying an object up to
   * any `s <= t_max` keeps exactly its hit over `[t_min, t_max]` when that lies
   * no further than `s`.
   */
  ghost predicate Nested(lib: Numeric, h: Hittable, r: Ray, tMin: Lo, tMax: Hi, rbg: real)
  {
    forall s: Hi :: HiLe(s, tMax) ==> Hit(lib, h, r, tMin, s, rbg) == Restrict(Hit(lib, h, r, tMin, tMax, rbg), s)
  }

  /** The object's hit over `[t_min, t_max]`, if any, lies in that interval. */
  ghost predicate Honours(lib: Numeric, h: Hittable, r: Ray, tMin: Lo, tMax: Hi, rbg: real)
  {
    Hit(lib, h, r, tMin, tMax, rbg).Some? ==> InInterval(Hit(lib, h, r, tMin, tMax, rbg).value.t, tMin, tMax)
  }

  /** Both assumptions, for every object of a list. */
  ghost predicate WellNested(lib: Numeric, objs: seq<Hittable>, r: Ray, tMin: Lo, tMax: Hi, rbg: real)
  {
    forall i :: 0 <= i < |objs| ==> Nested(lib, objs[i], r, tMin, tMax, rbg) && Honours(lib, objs[i], r, tMin, tMax, rbg)
  }

  /**
   * The scan after `n` objects is the closest hit among them over the whole
   * interval. Hence `closest_so_far` can only decrease: it is the minimum over
   * a growing set.
   */
  lemma {:induction false} ScanIsClosest(lib: Numeric, objs: seq<Hittable>, n: nat, r: Ray, tMin: Lo, tMax: Hi, rbg: real)
    requires n <= |objs| && WellNested(lib, objs, r, tMin, tMax, rbg)
    ensures ScanState(lib, objs, n, r, tMin, tMax, rbg) == Closest(lib, objs[..n], r, tMin, tMax, rbg)
    ensures var acc := ScanState(lib, objs, n, r, tMin, tMax, rbg);
      acc.Some? ==> InInterval(acc.value.t, tMin, tMax)
    decreases n
  {
    if n > 0 {
      ScanIsClosest(lib, objs, n - 1, r, tMin, tMax, rbg);
      assert objs[..n][..n - 1] == objs[..n - 1];
      var acc := ScanState(lib, objs, n - 1, r, tMin, tMax, rbg);
      var o := objs[n - 1];
      assert Nested(lib, o, r, tMin, tMax, rbg) && Honours(lib, o, r, tMin, tMax, rbg);
      assert HiLe(ClosestOf(acc, tMax), tMax);
      assert Hit(lib, o, r, tMin, ClosestOf(acc, tMax), rbg) == Restrict(Hit(lib, o, r, tMin, tMax, rbg), ClosestOf(acc, tMax));
    }
  }

  /**
   * What `HittableList::hit` promises: with well-nested objects the
   * list returns no hit exactly when no object hits, and otherwise a hit of one
   * of its objects at the minimum distance, inside the query interval.
   */
  lemma ListHitIsMinimum(lib: Numeric, objs: seq<Hittable>, r: Ray, tMin: Lo, tMax: Hi, rbg: real)
    requires WellNested(lib, objs, r, tMin, tMax, rbg)
    ensures var res := ListHit(lib, objs, r, tMin, tMax, rbg);
      (res.None? <==> forall o :: o in objs ==> Hit(lib, o, r, tMin, tMax, rbg).None?) &&
      (res.Some? ==> InInterval(res.value.t, tMin, tMax)) &&
      (res.Some? ==> exists o :: o in objs && res == Hit(lib, o, r, tMin, tMax, rbg)) &&
      (forall o :: o in objs && Hit(lib, o, r, tMin, tMax, rbg).Some? ==>
         res.Some? && res.value.t <= Hit(lib, o, r, tMin, tMax, rbg).value.t)
  {
    ScanIsClosest(lib, objs, |objs|, r, tMin, tMax, rbg);
    assert objs[..|objs|] == objs;
    ClosestIsMinimum(lib, objs, r, tMin, tMax, rbg);
  }

  /** The result comes from the last object that hits at the minimum distance. */
  lemma ListHitLastMinimumWins(lib: Numeric, objs: seq<Hittable>, j: nat, r: Ray, tMin: Lo, tMax: Hi, rbg: real)
    requires WellNested(lib, objs, r, tMin, tMax, rbg) && j < |objs|
    requires ListHit(lib, objs, r, tMin, tMax, rbg).Some?
    requires var h := Hit(lib, objs[j], r, tMin, tMax, rbg);
      h.Some? && h.value.t == ListHit(lib, objs, r, tMin, tMax, rbg).value.t
    requires forall i :: j < i < |objs| ==>
      (Hit(lib, objs[i], r, tMin, tMax, rbg).None? ||
       Hit(lib, objs[i], r, tMin, tMax, rbg).value.t > ListHit(lib, objs, r, tMin, tMax, rbg).value.t)
    ensures ListHit(lib, objs, r, tMin, tMax, rbg) == Hit(lib, objs[j], r, tMin, tMax, rbg)
  {
    ScanIsClosest(lib, objs, |objs|, r, tMin, tMax, rbg);
    assert objs[..|objs|] == objs;
    ClosestIsMinimum(lib, objs, r, tMin, tMax, rbg);
    var m := ListHit(lib, objs, r, tMin, tMax, rbg).value.t;
    forall i | 0 <= i < |objs| ensures AtLeast(Hit(lib, objs[i], r, tMin, tMax, rbg), m) {
      assert objs[i] in objs;
    }
    LastMinimumWins(lib, objs, j, |objs|, r, tMin, tMax, rbg, m);
  }

  /** No hit, or a hit no nearer than `m`. */
  predicate AtLeast(h: Option<HitRecord>, m: real)
  {
    h.None? || h.value.t >= m
  }

  /**
   * Among the first `n` objects, none hitting nearer than `m`, the scan keeps
   * object `j`'s hit at `m` when every later one misses or hits further.
   */
  lemma {:induction false} LastMinimumWins(lib: Numeric, objs: seq<Hittable>, j: nat, n: nat, r: Ray, tMin: Lo, tMax: Hi,
                                           rbg: real, m: real)
    requires j < n <= |objs|
    requires forall i :: 0 <= i < n ==> AtLeast(Hit(lib, objs[i], r, tMin, tMax, rbg), m)
    requires var h := Hit(lib, objs[j], r, tMin, tMax, rbg); h.Some? && h.value.t == m
    requires forall i :: j < i < n ==> Hit(lib, objs[i], r, tMin, tMax, rbg).None? || Hit(lib, objs[i], r, tMin, tMax, rbg).value.t > m
    ensures Closest(lib, objs[..n], r, tMin, tMax, rbg) == Hit(lib, objs[j], r, tMin, tMax, rbg)
    decreases n
  {
    var prefix := objs[..n];
    assert prefix[..n - 1] == objs[..n - 1];
    assert prefix[n - 1] == objs[n - 1];
    var last := Hit(lib, objs[n - 1], r, tMin, tMax, rbg);
    assert Closest(lib, prefix, r, tMin, tMax, rbg) == Pick(Closest(lib, objs[..n - 1], r, tMin, tMax, rbg), last);
    if n - 1 == j {
      MinimumBeatsPrefix(lib, objs, j, r, tMin, tMax, rbg, m);
    } else {
      LastMinimumWins(lib, objs, j, n - 1, r, tMin, tMax, rbg, m);
      assert last.None? || last.value.t > m;
    }
  }

  /** An object hitting at `m`, when none before it hits nearer, wins over whatever they found. */
  lemma MinimumBeatsPrefix(lib: Numeric, objs: seq<Hittable>, j: nat, r: Ray, tMin: Lo, tMax: Hi, rbg: real, m: real)
    requires j < |objs|
    requires forall i :: 0 <= i < j ==> AtLeast(Hit(lib, objs[i], r, tMin, tMax, rbg), m)
    requires var h := Hit(lib, objs[j], r, tMin, tMax, rbg); h.Some? && h.value.t == m
    ensures var h := Hit(lib, objs[j], r, tMin, tMax, rbg);
      Pick(Closest(lib, objs[..j], r, tMin, tMax, rbg), h) == h
  {
    ClosestIsMinimum(lib, objs[..j], r, tMin, tMax, rbg);
    var c := Closest(lib, objs[..j], r, tMin, tMax, rbg);
    if c.Some? {
      var o :| o in objs[..j] && c == Hit(lib, o, r, tMin, tMax, rbg);
      var i :| 0 <= i < j && objs[..j][i] == o;
      assert AtLeast(Hit(lib, objs[i], r, tMin, tMax, rbg), m);
    }
  }

  /** Nesting is inherited by every shorter query. */
  lemma NestedShrinks(lib: Numeric, h: Hittable, r: Ray, tMin: Lo, tMax: Hi, s: Hi, rbg: real)
    requires Nested(lib, h, r, tMin, tMax, rbg) && Honours(lib, h, r, tMin, tMax, rbg) && HiLe(s, tMax)
    ensures Nested(lib, h, r, tMin, s, rbg) && Honours(lib, h, r, tMin, s, rbg)
  {
    forall w: Hi | HiLe(w, s)
      ensures Hit(lib, h, r, tMin, w, rbg) == Restrict(Hit(lib, h, r, tMin, s, rbg), w)
    {
      assert HiLe(w, tMax);
    }
  }

  lemma {:induction false} ClosestRestricts(lib: Numeric, objs: seq<Hittable>, r: Ray, tMin: Lo, tMax: Hi, s: Hi, rbg: real)
    requires WellNested(lib, objs, r, tMin, tMax, rbg) && HiLe(s, tMax)
    ensures Closest(lib, objs, r, tMin, s, rbg) == Restrict(Closest(lib, objs, r, tMin, tMax, rbg), s)
    decreases |objs|
  {
    if |objs| > 0 {
      var init := objs[..|objs| - 1];
      assert WellNested(lib, init, r, tMin, tMax, rbg) by {
        forall i | 0 <= i < |init| ensures init[i] == objs[i] { }
      }
      ClosestRestricts(lib, init, r, tMin, tMax, s, rbg);
      var o := objs[|objs| - 1];
      assert Nested(lib, o, r, tMin, tMax, rbg);
      PickRestrict(Closest(lib, init, r, tMin, tMax, rbg), Hit(lib, o, r, tMin, tMax, rbg), s);
    }
  }

  /** A list of well-nested objects is itself well nested, so lists nest inside lists and boxes. */
  lemma ListHitNested(lib: Numeric, objs: seq<Hittable>, r: Ray, tMin: Lo, tMax: Hi, rbg: real)
    requires WellNested(lib, objs, r, tMin, tMax, rbg)
    ensures Nested(lib, List(objs), r, tMin, tMax, rbg) && Honours(lib, List(objs), r, tMin, tMax, rbg)
  {
    ScanIsClosest(lib, objs, |objs|, r, tMin, tMax, rbg);
    assert objs[..|objs|] == objs;
    forall s: Hi | HiLe(s, tMax)
      ensures Hit(lib, List(objs), r, tMin, s, rbg) == Restrict(Hit(lib, List(objs), r, tMin, tMax, rbg), s)
    {
      assert WellNested(lib, objs, r, tMin, s, rbg) by {
        forall i | 0 <= i < |objs|
          ensures Nested(lib, objs[i], r, tMin, s, rbg) && Honours(lib, objs[i], r, tMin, s, rbg)
        {
          NestedShrinks(lib, objs[i], r, tMin, tMax, s, rbg);
        }
      }
      ScanIsClosest(lib, objs, |objs|, r, tMin, s, rbg);
      ClosestRestricts(lib, objs, r, tMin, tMax, s, rbg);
    }
  }

  /** Spheres are well nested (the square root being non-negative at the discriminant). */
  lemma SphereNested(lib: Numeric, center: Vec3, radius: real, mat: Material, r: Ray, tMin: Lo, tMax: Hi, rbg: real)
    requires lib.sqrt(Spheres.Discriminant(center, radius, r)) >= 0.0
    ensures Nested(lib, Sphere(center, radius, mat), r, tMin, tMax, rbg)
    ensures Honours(lib, Sphere(center, radius, mat), r, tMin, tMax, rbg)
  {
    forall s: Hi | HiLe(s, tMax)
      ensures Hit(lib, Sphere(center, radius, mat), r, tMin, s, rbg)
           == Restrict(Hit(lib, Sphere(center, radius, mat), r, tMin, tMax, rbg), s)
    {
      Spheres.BallHitRestricts(lib, center, radius, mat, r, tMin, tMax, s);
    }
  }

  /** Rectangles are well nested. */
  lemma RectNested(lib: Numeric, plane: Plane, a0: real, a1: real, b0: real, b1: real, k: real, mat: Material,
                   r: Ray, tMin: Lo, tMax: Hi, rbg: real)
    ensures Nested(lib, Rect(plane, a0, a1, b0, b1, k, mat), r, tMin, tMax, rbg)
    ensures Honours(lib, Rect(plane, a0, a1, b0, b1, k, mat), r, tMin, tMax, rbg)
  {
    var h := Rect(plane, a0, a1, b0, b1, k, mat);
    forall s: Hi | HiLe(s, tMax)
      ensures Hit(lib, h, r, tMin, s, rbg) == Restrict(Hit(lib, h, r, tMin, tMax, rbg), s)
    {
      assert Hit(lib, h, r, tMin, s, rbg) == AaRects.RectHit(plane, a0, a1, b0, b1, k, mat, r, tMin, s);
      AaRects.RectHitRestricts(plane, a0, a1, b0, b1, k, mat, r, tMin, tMax, s);
    }
    assert Hit(lib, h, r, tMin, tMax, rbg) == AaRects.RectHit(plane, a0, a1, b0, b1, k, mat, r, tMin, tMax);
  }

  /**
   * A constant medium of positive density is well nested for a draw in (0, 1)
   * and a ray of non-zero length: its boundary queries do not depend on the
   * query interval.
   */
  lemma MediumNested(lib: Numeric, boundary: Hittable, phase: Material, negInvDensity: real,
                     r: Ray, tMin: Lo, tMax: Hi, rbg: real)
    requires negInvDensity < 0.0 && lib.ln(rbg) < 0.0 && Length(lib, r.dir) > 0.0
    ensures Nested(lib, Medium(boundary, phase, negInvDensity), r, tMin, tMax, rbg)
    ensures Honours(lib, Medium(boundary, phase, negInvDensity), r, tMin, tMax, rbg)
  {
    var m := Medium(boundary, phase, negInvDensity);
    var rec1 := Hit(lib, boundary, r, NegInf, PosInf, rbg);
    if rec1.Some? {
      var rec2 := Hit(lib, boundary, r, LoFin(rec1.value.t + ExitGap), PosInf, rbg);
      if rec2.Some? {
        forall s: Hi | HiLe(s, tMax)
          ensures Hit(lib, m, r, tMin, s, rbg) == Restrict(Hit(lib, m, r, tMin, tMax, rbg), s)
        {
          ConstantMedium.MediumInteriorRestricts(lib, rec1.value, rec2.value, r, tMin, tMax, s, negInvDensity, phase, rbg);
        }
        if Hit(lib, m, r, tMin, tMax, rbg).Some? {
          ConstantMedium.MediumHitInSegment(lib, rec1.value, rec2.value, r, tMin, tMax, negInvDensity, phase, rbg);
        }
      }
    }
  }

  // ---- Materials at hit points ----

  /** Every material a hit on `h` can carry satisfies `ok`: the primitives' materials and the media's phase functions. */
  predicate MaterialsSatisfy(h: Hittable, ok: Material -> bool)
    decreases h
  {
    match h
    case Sphere(_, _, mat) => ok(mat)
    case MovingSphere(_, _, _, _, _, mat) => ok(mat)
    case Rect(_, _, _, _, _, _, mat) => ok(mat)
    case Box(_, _, sides) => forall i :: 0 <= i < |sides| ==> MaterialsSatisfy(sides[i], ok)
    case Medium(_, phase, _) => ok(phase)
    case List(objects) => forall i :: 0 <= i < |objects| ==> MaterialsSatisfy(objects[i], ok)
    case BvhNode(left, right, _) => MaterialsSatisfy(left, ok) && MaterialsSatisfy(right, ok)
  }

  /** The material of a hit is one the scene holds (a medium's hit carries its phase function). */
  lemma {:induction false} HitMaterialSatisfies(lib: Numeric, h: Hittable, ok: Material -> bool,
                                                r: Ray, tMin: Lo, tMax: Hi, rbg: real)
    requires MaterialsSatisfy(h, ok)
    requires Hit(lib, h, r, tMin, tMax, rbg).Some?
    ensures ok(Hit(lib, h, r, tMin, tMax, rbg).value.mat)
    decreases h, 0
  {
    match h
    case Sphere(_, _, _) =>
    case MovingSphere(_, _, _, _, _, _) =>
    case Rect(_, _, _, _, _, _, _) =>
    case Box(_, _, sides) =>
      ScanMaterialSatisfies(lib, sides, |sides|, ok, r, tMin, tMax, rbg);
    case Medium(_, _, _) =>
    case List(objects) =>
      ScanMaterialSatisfies(lib, objects, |objects|, ok, r, tMin, tMax, rbg);
    case BvhNode(left, right, _) =>
      if Hit(lib, left, r, tMin, tMax, rbg).Some? {
        HitMaterialSatisfies(lib, left, ok, r, tMin, tMax, rbg);
      }
      if Hit(lib, right, r, tMin, tMax, rbg).Some? {
        HitMaterialSatisfies(lib, right, ok, r, tMin, tMax, rbg);
      }
  }

  lemma {:induction false} ScanMaterialSatisfies(lib: Numeric, objs: seq<Hittable>, n: nat, ok: Material -> bool,
                                                 r: Ray, tMin: Lo, tMax: Hi, rbg: real)
    requires n <= |objs| && forall i :: 0 <= i < |objs| ==> MaterialsSatisfy(objs[i], ok)
    requires ScanState(lib, objs, n, r, tMin, tMax, rbg).Some?
    ensures ok(ScanState(lib, objs, n, r, tMin, tMax, rbg).value.mat)
    decreases objs, n
  {
    var acc := ScanState(lib, objs, n - 1, r, tMin, tMax, rbg);
    var hitRec := Hit(lib, objs[n - 1], r, tMin, ClosestOf(acc, tMax), rbg);
    if hitRec.Some? {
      HitMaterialSatisfies(lib, objs[n - 1], ok, r, tMin, ClosestOf(acc, tMax), rbg);
    } else {
      ScanMaterialSatisfies(lib, objs, n - 1, ok, r, tMin, tMax, rbg);
    }
  }

  // ---- BVH traversal ----

  /** The objects at the leaves of a BVH, left to right; any other object is its own leaf. */
  function Leaves(h: Hittable): (leaves: seq<Hittable>)
    ensures |leaves| > 0
    decreases h
  {
    match h
    case BvhNode(left, right, _) => Leaves(left) + Leaves(right)
    case _ => [h]
  }

  /** Every node's slab test admits the ray over the query interval. */
  predicate SlabsAdmit(h: Hittable, r: Ray, tMin: Lo, tMax: Hi)
    decreases h
  {
    match h
    case BvhNode(left, right, box) => SlabHit(box, r, tMin, tMax) && SlabsAdmit(left, r, tMin, tMax) && SlabsAdmit(right, r, tMin, tMax)
    case _ => true
  }

  /**
   * When every slab test on the way admits the ray, a BVH returns the closest
   * of its leaves' hits: the traversal is the scan's reference in tree shape.
   */
  lemma {:induction false} BvhHitIsClosestLeaf(lib: Numeric, h: Hittable, r: Ray, tMin: Lo, tMax: Hi, rbg: real)
    requires SlabsAdmit(h, r, tMin, tMax)
    ensures Hit(lib, h, r, tMin, tMax, rbg) == Closest(lib, Leaves(h), r, tMin, tMax, rbg)
    decreases h
  {
    match h
    case BvhNode(left, right, box) =>
      BvhHitIsClosestLeaf(lib, left, r, tMin, tMax, rbg);
      BvhHitIsClosestLeaf(lib, right, r, tMin, tMax, rbg);
      ClosestAppend(lib, Leaves(left), Leaves(right), r, tMin, tMax, rbg);
      CombineIsPick(Hit(lib, left, r, tMin, tMax, rbg), Hit(lib, right, r, tMin, tMax, rbg));
    case _ =>
      assert [h][..0] == [];
  }

  // ---- Bounding boxes ----

  /** `bounding_box(time0, time1)` of a scene object. */
  function BoundingBox(h: Hittable, time0: real, time1: real): Option<Aabb>
    decreases h, 1
  {
    match h
    case Sphere(center, radius, _) => Some(Spheres.BallBox(center, radius))
    case MovingSphere(center0, center1, t0, t1, radius, _) =>
      Some(Spheres.MovingBallBox(center0, center1, t0, t1, radius, time0, time1))
    case Rect(plane, a0, a1, b0, b1, k, _) => Some(AaRects.RectBox(plane, a0, a1, b0, b1, k))
    case Box(boxMin, boxMax, _) => Some(NewAabb(boxMin, boxMax))
    case Medium(boundary, _, _) => BoundingBox(boundary, time0, time1)
    case List(objects) => ListBox(objects, 0, time0, time1)
    case BvhNode(_, _, box) => Some(box)
  }

  /**
   * The box of a list from its `i`-th object on: the union of the objects'
   * boxes, none if the list is empty or some object has none.
   */
  function ListBox(objs: seq<Hittable>, i: nat, time0: real, time1: real): Option<Aabb>
    requires i <= |objs|
    decreases objs, |objs| - i
  {
    if i == |objs| then None
    else
      var first := BoundingBox(objs[i], time0, time1);
      if i + 1 == |objs| then first
      else
        var rest := ListBox(objs, i + 1, time0, time1);
        if first.None? || rest.None? then None else Some(SurroundingBox(first.value, rest.value))
  }

  /** A list's box exists exactly when the list is non-empty and every object has a box. */
  lemma {:induction false} ListBoxExists(objs: seq<Hittable>, i: nat, time0: real, time1: real)
    requires i <= |objs|
    ensures ListBox(objs, i, time0, time1).Some? <==>
      i < |objs| && forall j :: i <= j < |objs| ==> BoundingBox(objs[j], time0, time1).Some?
    decreases |objs| - i
  {
    if i + 1 < |objs| {
      ListBoxExists(objs, i + 1, time0, time1);
    }
  }

  /** A list's box, when it exists, encloses the box of each of its objects. */
  lemma {:induction false} ListBoxEncloses(objs: seq<Hittable>, i: nat, time0: real, time1: real)
    requires i <= |objs|
    ensures ListBox(objs, i, time0, time1).Some? ==>
      forall j :: i <= j < |objs| ==>
        BoundingBox(objs[j], time0, time1).Some? &&
        Encloses(ListBox(objs, i, time0, time1).value, BoundingBox(objs[j], time0, time1).value)
    decreases |objs| - i
  {
    ListBoxExists(objs, i, time0, time1);
    if i + 1 < |objs| {
      ListBoxEncloses(objs, i + 1, time0, time1);
      var first, rest := BoundingBox(objs[i], time0, time1), ListBox(objs, i + 1, time0, time1);
      if first.Some? && rest.Some? {
        var u := SurroundingBox(first.value, rest.value);
        assert ListBox(objs, i, time0, time1) == Some(u);
        forall j | i < j < |objs| ensures Encloses(u, BoundingBox(objs[j], time0, time1).value) {
          EnclosesTransitive(u, rest.value, BoundingBox(objs[j], time0, time1).value);
        }
      }
    } else if i + 1 == |objs| {
      var b := BoundingBox(objs[i], time0, time1);
      if b.Some? {
        EnclosesReflexive(b.value);
      }
    }
  }

  lemma EnclosesTransitive(a: Aabb, b: Aabb, c: Aabb)
    requires Encloses(a, b) && Encloses(b, c)
    ensures Encloses(a, c)
  {
    forall ax: Axis ensures Get(a.minimum, ax) <= Get(c.minimum, ax) && Get(c.maximum, ax) <= Get(a.maximum, ax) {
      assert Get(a.minimum, ax) <= Get(b.minimum, ax) && Get(b.maximum, ax) <= Get(a.maximum, ax);
      assert Get(b.minimum, ax) <= Get(c.minimum, ax) && Get(c.maximum, ax) <= Get(b.maximum, ax);
    }
  }

  lemma EnclosesReflexive(a: Aabb)
    ensures Encloses(a, a)
  {
  }

  /** Every object other than a list or a medium has a box. */
  lemma BoxedPrimitives(h: Hittable, time0: real, time1: real)
    requires !h.List? && !h.Medium?
    ensures BoundingBox(h, time0, time1).Some?
  {
  }

  /** Lines 40-42 of constant_medium.rs: a medium's box is its boundary's, over the same times. */
  lemma MediumBoxIsBoundarys(boundary: Hittable, phase: Material, negInvDensity: real, time0: real, time1: real)
    ensures BoundingBox(Medium(boundary, phase, negInvDensity), time0, time1) == BoundingBox(boundary, time0, time1)
  {
  }
}
