// raytracer/src/constant_medium.rs: a participating medium inside a boundary,
// and its isotropic phase function. The two boundary queries of `hit`
// (lines 46-47) are made by Hittables.Hit, which hands both records to
// MediumInterior (lines 48-101).
module ConstantMedium {
  import opened Vectors
  import opened Intervals
  import opened Rays
  import opened HitRecords
  import opened Scene
  import opened Wrappers

  /** `ConstantMediun::new_col`: density `d`, phase function isotropic in colour `c`. */
  function NewCol(b: Hittable, d: real, c: Color): (m: Hittable)
    ensures m.Medium? && m.boundary == b && m.phase == Isotropic(c)
    ensures d != 0.0 ==> m.negInvDensity * d == -1.0
    ensures d > 0.0 ==> m.negInvDensity < 0.0
  {
    Medium(b, Isotropic(c), SafeDiv(-1.0, d))
  }

  /** The entry distance after clamping to `t_min` (lines 48-58). */
  function ClampedEntry(t1: real, tMin: Lo): (e: real)
    ensures AboveLo(e, tMin) && e >= t1
    ensures AboveLo(t1, tMin) ==> e == t1
  {
    if tMin.LoFin? && t1 < tMin.lo then tMin.lo else t1
  }

  /** The exit distance after clamping to `t_max` (lines 59-69). */
  function ClampedExit(t2: real, tMax: Hi): (x: real)
    ensures BelowHi(x, tMax) && x <= t2
    ensures BelowHi(t2, tMax) ==> x == t2
  {
    if tMax.HiFin? && t2 > tMax.hi then tMax.hi else t2
  }

  /**
   * Lines 48-101 of `hit`, given the boundary's first hit `rec1` and its
   * next hit `rec2`, and the free-flight draw `rbg`: no event unless the
   * clamped entry comes before the clamped exit; otherwise the free flight
   * from the entry, raised to 0 if negative, to the exit.
   */
  function MediumInterior(lib: Numeric, rec1: HitRecord, rec2: HitRecord, r: Ray, tMin: Lo, tMax: Hi,
                          negInvDensity: real, phase: Material, rbg: real): Option<HitRecord>
  {
    if ClampedEntry(rec1.t, tMin) >= ClampedExit(rec2.t, tMax) then None
    else FreeFlight(lib, EntryFrom(rec1.t, tMin), ClampedExit(rec2.t, tMax), r, negInvDensity, phase, rbg)
  }

  /**
   * Lines 48-101 as written: `hit_rec1` and `hit_rec2` are rebuilt step by
   * step, clamped to the query interval, then the entry raised to 0, before
   * the free flight is sampled.
   */
  method InteriorHit(lib: Numeric, hitRec1: HitRecord, hitRec2: HitRecord, r: Ray, tMin: Lo, tMax: Hi,
                     negInvDensity: real, phase: Material, rbg: real) returns (res: Option<HitRecord>)
    ensures res == MediumInterior(lib, hitRec1, hitRec2, r, tMin, tMax, negInvDensity, phase, rbg)
  {
    var rec1, rec2 := hitRec1, hitRec2;
    if tMin.LoFin? && rec1.t < tMin.lo {
      rec1 := NewHitRecord(rec1.p, tMin.lo, rec1.u, rec1.v, rec1.mat, rec1.normal, r);
    }
    if tMax.HiFin? && rec2.t > tMax.hi {
      rec2 := NewHitRecord(rec2.p, tMax.hi, rec2.u, rec2.v, rec2.mat, rec2.normal, r);
    }
    assert rec1.t == ClampedEntry(hitRec1.t, tMin) && rec2.t == ClampedExit(hitRec2.t, tMax);
    if rec1.t >= rec2.t {
      return None;
    }
    if rec1.t < 0.0 {
      rec1 := NewHitRecord(rec1.p, 0.0, rec1.u, rec1.v, rec1.mat, rec1.normal, r);
    }
    assert rec1.t == EntryFrom(hitRec1.t, tMin);
    res := SampleFlight(lib, rec1.t, rec2.t, r, negInvDensity, phase, rbg);
  }

  /** Lines 84-101 as written: the free flight from `entry`, scattering unless it passes `exit`. */
  method SampleFlight(lib: Numeric, entry: real, exit: real, r: Ray, negInvDensity: real, phase: Material, rbg: real)
    returns (res: Option<HitRecord>)
    ensures res == FreeFlight(lib, entry, exit, r, negInvDensity, phase, rbg)
  {
    var rayLength := Length(lib, r.dir);
    var distanceInsideBoundary := (exit - entry) * rayLength;
    var hitDistance := FlightDistance(lib, negInvDensity, rbg);
    assert FreeFlight(lib, entry, exit, r, negInvDensity, phase, rbg)
      == FlightOutcome(r, entry, distanceInsideBoundary, hitDistance, rayLength, phase);
    if hitDistance > distanceInsideBoundary {
      return None;
    }
    var t := entry + SafeDiv(hitDistance, rayLength);
    var p := At(r, t);
    res := Some(HitRecord(p, Zero, t, 0.0, 0.0, phase, true));
  }

  /** The entry a scattering event is measured from: the clamped entry, raised to 0 if negative. */
  function EntryFrom(t1: real, tMin: Lo): (e: real)
    ensures e >= 0.0 && e >= ClampedEntry(t1, tMin)
  {
    var e := ClampedEntry(t1, tMin);
    if e < 0.0 then 0.0 else e
  }

  /**
   * Lines 84-101: sample the free-flight distance and scatter there unless it
   * lies beyond the exit. The synthetic record has a zero normal, `u = v = 0`,
   * faces front and carries the phase function.
   */
  function FreeFlight(lib: Numeric, entry: real, exit: real, r: Ray, negInvDensity: real, phase: Material, rbg: real)
    : (res: Option<HitRecord>)
    ensures res.Some? ==> res.value.p == At(r, res.value.t)
    ensures res.Some? ==> res.value.normal == Zero && res.value.u == 0.0 && res.value.v == 0.0
    ensures res.Some? ==> res.value.frontFace && res.value.mat == phase
  {
    var rayLength := Length(lib, r.dir);
    FlightOutcome(r, entry, (exit - entry) * rayLength, FlightDistance(lib, negInvDensity, rbg), rayLength, phase)
  }

  /** Line 86: the sampled free-flight distance, `neg_inv_density * ln(random)`. */
  function FlightDistance(lib: Numeric, negInvDensity: real, rbg: real): real
  {
    negInvDensity * lib.ln(rbg)
  }

  /**
   * The outcome of a free flight of `hitDistance` from `entry` along a ray of
   * length `rayLength`, given the distance `inside` the boundary: none when
   * the flight is longer, else the scattering record.
   */
  function FlightOutcome(r: Ray, entry: real, inside: real, hitDistance: real, rayLength: real, phase: Material)
    : Option<HitRecord>
  {
    if hitDistance > inside then None
    else
      var t := entry + SafeDiv(hitDistance, rayLength);
      Some(HitRecord(At(r, t), Zero, t, 0.0, 0.0, phase, true))
  }

  /** A sampled free flight longer than the path inside the boundary is no scattering event. */
  lemma MediumRejectsLongFlight(lib: Numeric, rec1: HitRecord, rec2: HitRecord, r: Ray, tMin: Lo, tMax: Hi,
                                negInvDensity: real, phase: Material, rbg: real)
    requires negInvDensity * lib.ln(rbg) > (ClampedExit(rec2.t, tMax) - EntryFrom(rec1.t, tMin)) * Length(lib, r.dir)
    ensures MediumInterior(lib, rec1, rec2, r, tMin, tMax, negInvDensity, phase, rbg).None?
  {
  }

  lemma FlightWithinSegment(e: real, x: real, len: real, hd: real)
    requires len > 0.0 && 0.0 <= hd <= (x - e) * len
    ensures e <= e + SafeDiv(hd, len) <= x
  {
    var q := hd / len;
    assert q * len == hd;
    assert q >= 0.0;
    if q > x - e {
      assert q * len > (x - e) * len;
    }
  }

  lemma NonPositiveProduct(a: real, b: real)
    requires a <= 0.0 && b <= 0.0
    ensures a * b >= 0.0
  {
    assert a * b == (-a) * (-b);
  }

  /**
   * With a positive density (`negInvDensity <= 0`), a draw whose logarithm is
   * not positive and a non-zero ray length, the scattering point lies between
   * the (raised) entry and the clamped exit, hence in the query interval.
   */
  lemma MediumHitInSegment(lib: Numeric, rec1: HitRecord, rec2: HitRecord, r: Ray, tMin: Lo, tMax: Hi,
                           negInvDensity: real, phase: Material, rbg: real)
    requires negInvDensity <= 0.0 && lib.ln(rbg) <= 0.0 && Length(lib, r.dir) > 0.0
    requires MediumInterior(lib, rec1, rec2, r, tMin, tMax, negInvDensity, phase, rbg).Some?
    ensures var t := MediumInterior(lib, rec1, rec2, r, tMin, tMax, negInvDensity, phase, rbg).value.t;
      EntryFrom(rec1.t, tMin) <= t <= ClampedExit(rec2.t, tMax) && InInterval(t, tMin, tMax)
  {
    FreeFlightInSegment(lib, EntryFrom(rec1.t, tMin), ClampedExit(rec2.t, tMax), r, negInvDensity, phase, rbg);
  }

  lemma FreeFlightInSegment(lib: Numeric, entry: real, exit: real, r: Ray, negInvDensity: real, phase: Material, rbg: real)
    requires negInvDensity <= 0.0 && lib.ln(rbg) <= 0.0 && Length(lib, r.dir) > 0.0
    requires FreeFlight(lib, entry, exit, r, negInvDensity, phase, rbg).Some?
    ensures entry <= FreeFlight(lib, entry, exit, r, negInvDensity, phase, rbg).value.t <= exit
  {
    var len, hd := Length(lib, r.dir), negInvDensity * lib.ln(rbg);
    NonPositiveProduct(negInvDensity, lib.ln(rbg));
    assert hd <= (exit - entry) * len;
    FlightWithinSegment(entry, exit, len, hd);
  }

  /** For a ray of non-zero length, a free flight scatters exactly when its end lies no further than the exit. */
  lemma FreeFlightByDistance(lib: Numeric, entry: real, exit: real, r: Ray, negInvDensity: real, phase: Material, rbg: real)
    requires Length(lib, r.dir) > 0.0
    ensures var q := SafeDiv(negInvDensity * lib.ln(rbg), Length(lib, r.dir));
      var res := FreeFlight(lib, entry, exit, r, negInvDensity, phase, rbg);
      (res.Some? <==> entry + q <= exit) && (res.Some? ==> res.value.t == entry + q)
  {
    QuotientCompare(negInvDensity * lib.ln(rbg), Length(lib, r.dir), exit - entry);
  }

  lemma QuotientCompare(hd: real, len: real, d: real)
    requires len > 0.0
    ensures SafeDiv(hd, len) <= d <==> hd <= d * len
  {
    var q := hd / len;
    assert q * len == hd;
    if q <= d {
      assert q * len <= d * len;
    } else {
      assert q * len > d * len;
    }
  }

  lemma NegativeProduct(a: real, b: real)
    requires a < 0.0 && b < 0.0
    ensures a * b > 0.0
  {
    assert a * b == (-a) * (-b);
  }

  lemma PositiveQuotient(hd: real, len: real)
    requires hd > 0.0 && len > 0.0
    ensures SafeDiv(hd, len) > 0.0
  {
  }

  /**
   * With a positive density, a draw in (0, 1) and a non-zero ray length,
   * shrinking the query interval to end at `s <= t_max` keeps the scattering
   * event exactly when it lies no further than `s`: the sampled distance does
   * not depend on `t_max`, only whether it still fits inside.
   */
  lemma MediumInteriorRestricts(lib: Numeric, rec1: HitRecord, rec2: HitRecord, r: Ray, tMin: Lo, tMax: Hi, s: Hi,
                                negInvDensity: real, phase: Material, rbg: real)
    requires negInvDensity < 0.0 && lib.ln(rbg) < 0.0 && Length(lib, r.dir) > 0.0
    requires HiLe(s, tMax)
    ensures MediumInterior(lib, rec1, rec2, r, tMin, s, negInvDensity, phase, rbg)
         == Restrict(MediumInterior(lib, rec1, rec2, r, tMin, tMax, negInvDensity, phase, rbg), s)
  {
    var entry, ce := EntryFrom(rec1.t, tMin), ClampedEntry(rec1.t, tMin);
    var x, xs := ClampedExit(rec2.t, tMax), ClampedExit(rec2.t, s);
    NegativeProduct(negInvDensity, lib.ln(rbg));
    PositiveQuotient(negInvDensity * lib.ln(rbg), Length(lib, r.dir));
    FreeFlightByDistance(lib, entry, x, r, negInvDensity, phase, rbg);
    FreeFlightByDistance(lib, entry, xs, r, negInvDensity, phase, rbg);
  }

  /** `Iostropic::scatter`: always scatters from the hit point, keeping the ray's time, in the albedo's colour. */
  function IsotropicScatter(albedo: Color, rIn: Ray, rec: HitRecord, draw: Draw): (res: Option<(Ray, Color)>)
    ensures res.Some?
    ensures res.value.0.orig == rec.p && res.value.0.tm == rIn.tm && res.value.1 == albedo
    ensures res.value.0.dir == draw.inUnitSphere
  {
    Some((NewRay(rec.p, draw.inUnitSphere, rIn.tm), albedo))
  }
}
