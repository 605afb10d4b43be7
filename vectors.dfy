// The supplied numeric library: three-component vectors over the reals, the
// operations whose bodies are not part of this model (square root, logarithm,
// reflection, refraction, normalisation, the near-zero test and the spherical
// (u, v) map) as uninterpreted total arrows, and the random draws the renderer
// consumes, passed in as values.
module Vectors {

  datatype Vec3 = Vec3(x: real, y: real, z: real)

  /** Colours are vectors, as in the source. */
  type Color = Vec3

  /** An axis index, as used by `v[a]` in the source. */
  type Axis = a: int | 0 <= a < 3

  const Zero: Vec3 := Vec3(0.0, 0.0, 0.0)
  const One: Vec3 := Vec3(1.0, 1.0, 1.0)

  function Get(v: Vec3, a: Axis): real
  {
    if a == 0 then v.x else if a == 1 then v.y else v.z
  }

  function Add(a: Vec3, b: Vec3): Vec3
  {
    Vec3(a.x + b.x, a.y + b.y, a.z + b.z)
  }

  function Sub(a: Vec3, b: Vec3): Vec3
  {
    Vec3(a.x - b.x, a.y - b.y, a.z - b.z)
  }

  function Neg(a: Vec3): Vec3
  {
    Vec3(-a.x, -a.y, -a.z)
  }

  function Scale(s: real, a: Vec3): Vec3
  {
    Vec3(s * a.x, s * a.y, s * a.z)
  }

  /** Componentwise product, used for colour attenuation. */
  function Mul(a: Vec3, b: Vec3): Vec3
  {
    Vec3(a.x * b.x, a.y * b.y, a.z * b.z)
  }

  function Dot(a: Vec3, b: Vec3): real
  {
    a.x * b.x + a.y * b.y + a.z * b.z
  }

  function LengthSquared(a: Vec3): real
  {
    Dot(a, a)
  }

  function Min(a: real, b: real): real
  {
    if a <= b then a else b
  }

  function Max(a: real, b: real): real
  {
    if a >= b then a else b
  }

  /** Real division; a zero divisor (infinity or NaN in f64) is outside the model and yields 0. */
  function SafeDiv(a: real, b: real): real
  {
    if b == 0.0 then 0.0 else a / b
  }

  /** The library operations whose bodies are not modelled. */
  datatype Numeric = Numeric(
    sqrt: real -> real,
    ln: real -> real,
    unitVector: Vec3 -> Vec3,
    reflect: (Vec3, Vec3) -> Vec3,
    refract: (Vec3, Vec3, real) -> Vec3,
    nearZero: Vec3 -> bool,
    sphereUv: Vec3 -> (real, real))

  /** `v.length()`: the square root of the squared length. */
  function Length(lib: Numeric, v: Vec3): real
  {
    lib.sqrt(LengthSquared(v))
  }

  /** The square-root axiom at one argument. */
  ghost predicate SqrtAt(lib: Numeric, x: real)
  {
    x >= 0.0 ==> lib.sqrt(x) >= 0.0 && lib.sqrt(x) * lib.sqrt(x) == x
  }

  /**
   * The random values one bounce consumes: `random_unit_vector`,
   * `random_in_unit_sphere`, a uniform draw in [0,1) for the Schlick test and
   * the free-flight draw `rbg` of a constant medium.
   */
  datatype Draw = Draw(unitVector: Vec3, inUnitSphere: Vec3, uniform: real, rbg: real)

  lemma MulSafeDiv(x: real, k: real)
    requires k != 0.0
    ensures k * SafeDiv(x, k) == x
  {
  }

  lemma DotNeg(a: Vec3, b: Vec3)
    ensures Dot(a, Neg(b)) == -Dot(a, b)
  {
  }

  lemma LengthSquaredNonNegative(a: Vec3)
    ensures LengthSquared(a) >= 0.0
  {
    assert a.x * a.x >= 0.0 && a.y * a.y >= 0.0 && a.z * a.z >= 0.0;
  }
}
