// raytracer/src/main.rs: the recursive integrator `ray_color`, `clamp`, and
// the row index an image row is written to. The scene builders and the pixel
// loop around them are not part of this model.
module Integrator {
  import opened Vectors
  import opened Intervals
  import opened Rays
  import opened HitRecords
  import opened Scene
  import opened Wrappers
  import opened Hittables
  import opened Materials

  /** Line 379: the scene is queried over `[0.001, +inf)`. */
  const QueryMin: real := 0.001

  /** The random values the bounce at each remaining depth consumes. */
  type Draws = int -> Draw

  /**
   * `ray_color`: black once the depth is used up; otherwise the scene is
   * queried over `[0.001, +inf)` and the answer shaded. Terminates because
   * the one recursive call, in `Shade`, lowers `depth`.
   */
  function RayColor(lib: Numeric, r: Ray, background: Color, world: Hittable, depth: int, draws: Draws): Color
    decreases depth, 1
  {
    if depth <= 0 then Zero
    else Shade(lib, r, background, world, depth, draws, Hit(lib, world, r, LoFin(QueryMin), PosInf, draws(depth).rbg))
  }

  /**
   * The colour of one scene answer: the background on a miss; otherwise the
   * emission at the hit plus, when the material scatters, the attenuated
   * colour of the scattered ray one level deeper.
   */
  function Shade(lib: Numeric, r: Ray, background: Color, world: Hittable, depth: int, draws: Draws,
                 hit: Option<HitRecord>): Color
    requires depth > 0
    decreases depth, 0
  {
    match hit
    case None => background
    case Some(rec) =>
      var emitted := Emitted(rec.mat, rec.u, rec.v, rec.p);
      match Scatter(lib, rec.mat, r, rec, draws(depth))
      case Some((scattered, attenuation)) =>
        Add(emitted, Mul(attenuation, RayColor(lib, scattered, background, world, depth - 1, draws)))
      case None => emitted
  }

  /**
   * The cases of `ray_color`, one per branch of lines 375-389: the depth
   * floor, the miss, the absorbing hit and the scattering hit.
   */
  lemma RayColorCases(lib: Numeric, r: Ray, background: Color, world: Hittable, depth: int, draws: Draws)
    ensures depth <= 0 ==> RayColor(lib, r, background, world, depth, draws) == Zero
    ensures var hit := Hit(lib, world, r, LoFin(QueryMin), PosInf, draws(depth).rbg);
      depth > 0 && hit.None? ==> RayColor(lib, r, background, world, depth, draws) == background
    ensures var hit := Hit(lib, world, r, LoFin(QueryMin), PosInf, draws(depth).rbg);
      depth > 0 && hit.Some? ==>
        var rec := hit.value;
        var emitted := Emitted(rec.mat, rec.u, rec.v, rec.p);
        var s := Scatter(lib, rec.mat, r, rec, draws(depth));
        RayColor(lib, r, background, world, depth, draws) ==
          if s.None? then emitted
          else Add(emitted, Mul(s.value.1, RayColor(lib, s.value.0, background, world, depth - 1, draws)))
  {
  }

  /** No surface emits: no material reachable by a hit is a diffuse light. */
  function NotLight(): Material -> bool
  {
    (m: Material) => !m.DiffuseLight?
  }

  /**
   * A scene without lights under a black background stays black: whatever the
   * depth and the draws, `ray_color` returns black.
   */
  lemma {:induction false} RayColorDark(lib: Numeric, r: Ray, world: Hittable, depth: int, draws: Draws)
    requires MaterialsSatisfy(world, NotLight())
    ensures RayColor(lib, r, Zero, world, depth, draws) == Zero
    decreases depth, 1
  {
    if depth > 0 {
      var hit := Hit(lib, world, r, LoFin(QueryMin), PosInf, draws(depth).rbg);
      if hit.Some? {
        HitMaterialSatisfies(lib, world, NotLight(), r, LoFin(QueryMin), PosInf, draws(depth).rbg);
      }
      ShadeDark(lib, r, world, depth, draws, hit);
    }
  }

  /** One level of `RayColorDark`: a non-emitting hit under a black background shades black. */
  lemma {:induction false} ShadeDark(lib: Numeric, r: Ray, world: Hittable, depth: int, draws: Draws,
                                     hit: Option<HitRecord>)
    requires MaterialsSatisfy(world, NotLight())
    requires depth > 0 && (hit.Some? ==> !hit.value.mat.DiffuseLight?)
    ensures Shade(lib, r, Zero, world, depth, draws, hit) == Zero
    decreases depth, 0
  {
    if hit.Some? {
      var rec := hit.value;
      var s := Scatter(lib, rec.mat, r, rec, draws(depth));
      if s.Some? {
        RayColorDark(lib, s.value.0, world, depth - 1, draws);
      }
    }
  }

  /** Every component of `c` lies in `[0, hi]`. */
  predicate InRange(c: Color, hi: real)
  {
    0.0 <= c.x <= hi && 0.0 <= c.y <= hi && 0.0 <= c.z <= hi
  }

  /** A material that attenuates by at most 1 per component and emits at most `e`. */
  function Bounded(e: real): Material -> bool
  {
    (m: Material) => InRange(Albedo(m), 1.0) && InRange(Emitted(m, 0.0, 0.0, Zero), e)
  }

  /**
   * Energy bound: with attenuations in `[0,1]`, emissions in `[0,e]` and a
   * background in `[0,b]`, the colour after `depth` bounces lies in
   * `[0, b + depth*e]`: each bounce adds at most one emission.
   */
  lemma {:induction false} RayColorBounded(lib: Numeric, r: Ray, background: Color, world: Hittable,
                                           depth: int, draws: Draws, b: real, e: real)
    requires MaterialsSatisfy(world, Bounded(e)) && InRange(background, b) && e >= 0.0
    ensures InRange(RayColor(lib, r, background, world, depth, draws), Budget(b, e, depth))
    decreases depth, 1
  {
    if depth > 0 {
      var hit := Hit(lib, world, r, LoFin(QueryMin), PosInf, draws(depth).rbg);
      if hit.Some? {
        HitMaterialSatisfies(lib, world, Bounded(e), r, LoFin(QueryMin), PosInf, draws(depth).rbg);
      }
      ShadeBounded(lib, r, background, world, depth, draws, hit, b, e);
    } else {
      assert Budget(b, e, depth) == b;
    }
  }

  /** The bounces left at `depth`: none once the depth is used up. */
  function Bounces(depth: int): nat
  {
    if depth > 0 then depth else 0
  }

  /** The brightest colour component after `depth` bounces: the background plus one emission per bounce. */
  function Budget(b: real, e: real, depth: int): real
  {
    b + Bounces(depth) as real * e
  }

  /** One more bounce raises the budget by one emission. */
  lemma BudgetStep(b: real, e: real, depth: int)
    requires depth > 0
    ensures Budget(b, e, depth - 1) + e == Budget(b, e, depth)
  {
    var n := Bounces(depth - 1) as real;
    assert Bounces(depth) as real == n + 1.0;
    assert (n + 1.0) * e == n * e + e;
  }

  /** One level of `RayColorBounded`. */
  lemma {:induction false} ShadeBounded(lib: Numeric, r: Ray, background: Color, world: Hittable,
                                        depth: int, draws: Draws, hit: Option<HitRecord>, b: real, e: real)
    requires MaterialsSatisfy(world, Bounded(e)) && InRange(background, b) && e >= 0.0
    requires depth > 0 && (hit.Some? ==> Bounded(e)(hit.value.mat))
    ensures InRange(Shade(lib, r, background, world, depth, draws, hit), Budget(b, e, depth))
    decreases depth, 0
  {
    var restBound := Budget(b, e, depth - 1);
    BudgetStep(b, e, depth);
    assert b <= restBound by {
      NonNegativeProduct(Bounces(depth - 1) as real, e);
    }
    if hit.Some? {
      var rec := hit.value;
      EmittedIgnoresPosition(rec.mat, rec.u, rec.v, rec.p);
      var s := Scatter(lib, rec.mat, r, rec, draws(depth));
      if s.Some? {
        ScatterAttenuation(lib, rec.mat, r, rec, draws(depth));
        RayColorBounded(lib, s.value.0, background, world, depth - 1, draws, b, e);
        AttenuatedInRange(s.value.1, RayColor(lib, s.value.0, background, world, depth - 1, draws), restBound);
      }
    }
  }

  lemma NonNegativeProduct(a: real, b: real)
    requires a >= 0.0 && b >= 0.0
    ensures a * b >= 0.0
  {
  }

  /** Attenuating by at most 1 per component keeps a colour in `[0, hi]`. */
  lemma AttenuatedInRange(a: Color, c: Color, hi: real)
    requires InRange(a, 1.0) && InRange(c, hi)
    ensures InRange(Mul(a, c), hi)
  {
    UnitScale(a.x, c.x, hi);
    UnitScale(a.y, c.y, hi);
    UnitScale(a.z, c.z, hi);
  }

  lemma UnitScale(a: real, x: real, hi: real)
    requires 0.0 <= a <= 1.0 && 0.0 <= x <= hi
    ensures 0.0 <= a * x <= hi
  {
    assert a * x <= 1.0 * x;
  }

  // ---- Pixel output ----

  /** `clamp(x, min, max)`: `min` below the range, `max` above it, `x` inside. */
  function Clamp(x: real, min: real, max: real): (r: real)
    ensures min <= max ==> min <= r <= max
    ensures min <= x <= max ==> r == x
    ensures x < min ==> r == min
    ensures min <= max && x > max ==> r == max
  {
    if x < min then min
    else if x > max then max
    else x
  }

  /** Line 356: image row `j`, counted from the bottom, is written to row `height - j - 1` from the top. */
  function FlipRow(height: int, j: int): (row: int)
    ensures 0 <= j < height ==> 0 <= row < height
    ensures height - row - 1 == j
  {
    height - j - 1
  }
}
