// raytracer/src/material.rs: how each material scatters an incoming ray at a
// hit point, and what it emits. The random values each scatter draws are the
// fields of a Vectors.Draw.
module Materials {
  import opened Vectors
  import opened Rays
  import opened HitRecords
  import opened Wrappers
  import ConstantMedium

  /** `Lambertian::scatter`: always scatters, around the normal, in the albedo's colour. */
  function LambertianScatter(lib: Numeric, albedo: Color, rIn: Ray, rec: HitRecord, draw: Draw)
    : (res: Option<(Ray, Color)>)
    ensures res.Some? && res.value.1 == albedo
    ensures res.value.0.orig == rec.p && res.value.0.tm == rIn.tm
    ensures res.value.0.dir == (if lib.nearZero(Add(rec.normal, draw.unitVector)) then rec.normal
                                else Add(rec.normal, draw.unitVector))
  {
    var scatterDirection := Add(rec.normal, draw.unitVector);
    var scatterDirection := if lib.nearZero(scatterDirection) then rec.normal else scatterDirection;
    Some((NewRay(rec.p, scatterDirection, rIn.tm), albedo))
  }

  /** `Metal::new`: a fuzz of 1 or more is cut to 1; there is no lower bound. */
  function NewMetal(a: Color, fuzz: real): (m: Material)
    ensures m.Metal? && m.albedo == a
    ensures m.fuzz <= 1.0
    ensures fuzz < 1.0 ==> m.fuzz == fuzz
    ensures fuzz >= 1.0 ==> m.fuzz == 1.0
  {
    Metal(a, if fuzz < 1.0 then fuzz else 1.0)
  }

  /** A negative fuzz is stored as it is. */
  lemma NewMetalKeepsNegativeFuzz()
    ensures NewMetal(Zero, -1.0).fuzz == -1.0
  {
  }

  /** `Metal::scatter`: the fuzzed mirror ray, kept only if it leaves the surface. */
  function MetalScatter(lib: Numeric, albedo: Color, fuzz: real, rIn: Ray, rec: HitRecord, draw: Draw)
    : (res: Option<(Ray, Color)>)
    ensures var dir := Add(lib.reflect(lib.unitVector(rIn.dir), rec.normal), Scale(fuzz, draw.inUnitSphere));
      (res.Some? <==> Dot(dir, rec.normal) > 0.0) &&
      (res.Some? ==> res.value.0 == Ray(rec.p, dir, rIn.tm) && res.value.1 == albedo)
  {
    var reflected := lib.reflect(lib.unitVector(rIn.dir), rec.normal);
    var scattered := NewRay(rec.p, Add(reflected, Scale(fuzz, draw.inUnitSphere)), rIn.tm);
    var attenuation := albedo;
    if Dot(scattered.dir, rec.normal) > 0.0 then Some((scattered, attenuation)) else None
  }

  /** `x.powf(5.0)`, which for these arguments is the fifth power. */
  function Pow5(x: real): real
  {
    x * x * x * x * x
  }

  /** `Dielectric::reflectance`: Schlick's approximation. */
  function Reflectance(cosine: real, refIdx: real): real
  {
    var r0 := SafeDiv(1.0 - refIdx, 1.0 + refIdx);
    var r0 := r0 * r0;
    r0 + (1.0 - r0) * Pow5(1.0 - cosine)
  }

  /** At normal incidence the reflectance is the base reflectance `((1-n)/(1+n))^2`. */
  lemma ReflectanceAtNormalIncidence(n: real)
    requires n != -1.0
    ensures Reflectance(1.0, n) == ((1.0 - n) / (1.0 + n)) * ((1.0 - n) / (1.0 + n))
  {
    assert Pow5(0.0) == 0.0;
  }

  /** For a non-negative index and a cosine in [0,1] the reflectance is a probability. */
  lemma ReflectanceIsProbability(cosine: real, refIdx: real)
    requires 0.0 <= cosine <= 1.0 && refIdx >= 0.0
    ensures 0.0 <= Reflectance(cosine, refIdx) <= 1.0
  {
    var q := SafeDiv(1.0 - refIdx, 1.0 + refIdx);
    BaseRatioBounded(refIdx);
    UnitProduct(if q >= 0.0 then q else -q, if q >= 0.0 then q else -q);
    Pow5Bounded(1.0 - cosine);
    ConvexBounded(q * q, Pow5(1.0 - cosine));
  }

  lemma BaseRatioBounded(n: real)
    requires n >= 0.0
    ensures -1.0 <= SafeDiv(1.0 - n, 1.0 + n) <= 1.0
  {
    var q := (1.0 - n) / (1.0 + n);
    assert q * (1.0 + n) == 1.0 - n;
  }

  lemma Pow5Bounded(x: real)
    requires 0.0 <= x <= 1.0
    ensures 0.0 <= Pow5(x) <= 1.0
  {
    UnitProduct(x, x);
    UnitProduct(x * x, x);
    UnitProduct(x * x * x, x);
    UnitProduct(x * x * x * x, x);
  }

  lemma ConvexBounded(r0: real, p: real)
    requires 0.0 <= r0 <= 1.0 && 0.0 <= p <= 1.0
    ensures 0.0 <= r0 + (1.0 - r0) * p <= 1.0
  {
    UnitProduct(1.0 - r0, p);
  }

  lemma UnitProduct(a: real, b: real)
    requires 0.0 <= a <= 1.0 && 0.0 <= b <= 1.0
    ensures 0.0 <= a * b <= b && a * b <= a
  {
  }

  /** The refraction ratio: `1/ir` when entering the front face, `ir` when leaving. */
  function RefractionRatio(ir: real, frontFace: bool): real
  {
    if frontFace then SafeDiv(1.0, ir) else ir
  }

  /** The cosine of the angle of incidence, capped at 1 (line 100). */
  function CosTheta(unitDirection: Vec3, normal: Vec3): real
  {
    Min(Dot(Neg(unitDirection), normal), 1.0)
  }

  /** `sin_theta`, through the square root of the numeric library. */
  function SinTheta(lib: Numeric, cosTheta: real): real
  {
    lib.sqrt(1.0 - cosTheta * cosTheta)
  }

  /**
   * Lines 101-107: reflect when Snell's law admits no refraction
   * (`ratio * sin_theta > 1`) or when the Schlick reflectance exceeds the
   * uniform draw.
   */
  predicate Reflects(lib: Numeric, ratio: real, cosTheta: real, uniform: real)
  {
    CannotRefract(lib, ratio, cosTheta) || Reflectance(cosTheta, ratio) > uniform
  }

  /** Snell's law has no solution: `ratio * sin_theta > 1`. */
  predicate CannotRefract(lib: Numeric, ratio: real, cosTheta: real)
  {
    ratio * SinTheta(lib, cosTheta) > 1.0
  }

  /**
   * `Dielectric::scatter`: always scatters, without tint, from the hit point;
   * the direction is the mirror direction when Reflects holds and the refracted
   * one otherwise.
   */
  function DielectricScatter(lib: Numeric, ir: real, rIn: Ray, rec: HitRecord, draw: Draw)
    : (res: Option<(Ray, Color)>)
    ensures res.Some? && res.value.1 == One
    ensures res.value.0.orig == rec.p && res.value.0.tm == rIn.tm
    ensures var ratio, ud := RefractionRatio(ir, rec.frontFace), lib.unitVector(rIn.dir);
      res.value.0.dir == (if Reflects(lib, ratio, CosTheta(ud, rec.normal), draw.uniform)
                          then lib.reflect(ud, rec.normal) else lib.refract(ud, rec.normal, ratio))
  {
    var attenuation := One;
    var refractionRatio := RefractionRatio(ir, rec.frontFace);
    var unitDirection := lib.unitVector(rIn.dir);
    var cosTheta := CosTheta(unitDirection, rec.normal);
    var direction := if Reflects(lib, refractionRatio, cosTheta, draw.uniform)
                     then lib.reflect(unitDirection, rec.normal)
                     else lib.refract(unitDirection, rec.normal, refractionRatio);
    Some((NewRay(rec.p, direction, rIn.tm), attenuation))
  }

  /** Total internal reflection: when `ratio * sin_theta > 1` the ray is reflected whatever the draw. */
  lemma DielectricReflectsWhenCannotRefract(lib: Numeric, ir: real, rIn: Ray, rec: HitRecord, draw: Draw)
    requires CannotRefract(lib, RefractionRatio(ir, rec.frontFace), CosTheta(lib.unitVector(rIn.dir), rec.normal))
    ensures DielectricScatter(lib, ir, rIn, rec, draw).value.0.dir == lib.reflect(lib.unitVector(rIn.dir), rec.normal)
  {
    assert Reflects(lib, RefractionRatio(ir, rec.frontFace), CosTheta(lib.unitVector(rIn.dir), rec.normal), draw.uniform);
  }

  /**
   * Either face: when the ray can refract and the draw is at least the
   * Schlick reflectance, the scattered ray is the refracted direction with
   * the face's index ratio.
   */
  lemma DielectricRefractsWhenAllowed(lib: Numeric, ir: real, rIn: Ray, rec: HitRecord, draw: Draw)
    requires 0.0 <= draw.uniform < 1.0
    requires var ratio := RefractionRatio(ir, rec.frontFace);
      var cosTheta := CosTheta(lib.unitVector(rIn.dir), rec.normal);
      !CannotRefract(lib, ratio, cosTheta) && Reflectance(cosTheta, ratio) <= draw.uniform
    ensures DielectricScatter(lib, ir, rIn, rec, draw).value.0.dir
      == lib.refract(lib.unitVector(rIn.dir), rec.normal, RefractionRatio(ir, rec.frontFace))
  {
    var ratio := RefractionRatio(ir, rec.frontFace);
    NoReflection(lib, ratio, CosTheta(lib.unitVector(rIn.dir), rec.normal), draw.uniform);
  }

  lemma NoReflection(lib: Numeric, ratio: real, cosTheta: real, uniform: real)
    requires !CannotRefract(lib, ratio, cosTheta) && Reflectance(cosTheta, ratio) <= uniform
    ensures !Reflects(lib, ratio, cosTheta, uniform)
  {
  }

  /** `Material::scatter`, dispatched on the variant. `DiffuseLight` never scatters. */
  function Scatter(lib: Numeric, m: Material, rIn: Ray, rec: HitRecord, draw: Draw): (res: Option<(Ray, Color)>)
    ensures res.Some? ==> res.value.0.orig == rec.p && res.value.0.tm == rIn.tm
    ensures (m.Lambertian? || m.Dielectric? || m.Isotropic?) ==> res.Some?
    ensures m.DiffuseLight? ==> res.None?
  {
    match m
    case Lambertian(albedo) => LambertianScatter(lib, albedo, rIn, rec, draw)
    case Metal(albedo, fuzz) => MetalScatter(lib, albedo, fuzz, rIn, rec, draw)
    case Dielectric(ir) => DielectricScatter(lib, ir, rIn, rec, draw)
    case DiffuseLight(_) => None
    case Isotropic(albedo) => ConstantMedium.IsotropicScatter(albedo, rIn, rec, draw)
  }

  /** `Material::emitted`: black except for a diffuse light, which emits its colour. */
  function Emitted(m: Material, u: real, v: real, p: Vec3): (c: Color)
    ensures !m.DiffuseLight? ==> c == Zero
    ensures m.DiffuseLight? ==> c == m.emit
  {
    match m
    case DiffuseLight(emit) => emit
    case _ => Zero
  }

  /** The attenuation a material scatters with: its albedo, and no tint for a dielectric. */
  function Albedo(m: Material): Color
  {
    match m
    case Lambertian(albedo) => albedo
    case Metal(albedo, _) => albedo
    case Dielectric(_) => One
    case DiffuseLight(_) => Zero
    case Isotropic(albedo) => albedo
  }

  /** Whenever a material scatters, it attenuates by its albedo. */
  lemma ScatterAttenuation(lib: Numeric, m: Material, rIn: Ray, rec: HitRecord, draw: Draw)
    requires Scatter(lib, m, rIn, rec, draw).Some?
    ensures Scatter(lib, m, rIn, rec, draw).value.1 == Albedo(m)
  {
  }

  /** A material's emission does not depend on where it is hit. */
  lemma EmittedIgnoresPosition(m: Material, u: real, v: real, p: Vec3)
    ensures Emitted(m, u, v, p) == Emitted(m, 0.0, 0.0, Zero)
  {
  }
}
