// raytracer/src/hittable.rs: the hit record and its front-face rule. The
// record refers to the material at the hit point; the material trait objects
// are the variants of `Material` below, whose behaviour is in module Materials.
module HitRecords {
  import opened Vectors
  import opened Intervals
  import opened Rays
  import opened Wrappers

  /** The `Material` implementations, as variants. */
  datatype Material =
    | Lambertian(albedo: Color)
    | Metal(albedo: Color, fuzz: real)
    | Dielectric(ir: real)
    | DiffuseLight(emit: Color)
    | Isotropic(albedo: Color)

  datatype HitRecord = HitRecord(
    p: Vec3,
    normal: Vec3,
    t: real,
    u: real,
    v: real,
    mat: Material,
    frontFace: bool)

  /**
   * `HitRecord::new`: the stored normal faces against the incoming ray; it is
   * the outward normal exactly when the ray hits the front face.
   */
  function NewHitRecord(p: Vec3, t: real, u: real, v: real, mat: Material, outwardNormal: Vec3, r: Ray): (rec: HitRecord)
    ensures rec.p == p && rec.t == t && rec.u == u && rec.v == v && rec.mat == mat
    ensures rec.frontFace <==> Dot(r.dir, outwardNormal) < 0.0
    ensures rec.normal == (if rec.frontFace then outwardNormal else Neg(outwardNormal))
    ensures Dot(r.dir, rec.normal) <= 0.0
  {
    var frontFace := Dot(r.dir, outwardNormal) < 0.0;
    var normal := if frontFace then outwardNormal else Neg(outwardNormal);
    DotNeg(r.dir, outwardNormal);
    HitRecord(p, normal, t, u, v, mat, frontFace)
  }

  /** Unless the ray grazes the surface, the side the outward normal points to does not matter. */
  lemma NormalIgnoresOrientation(p: Vec3, t: real, u: real, v: real, mat: Material, n: Vec3, r: Ray)
    requires Dot(r.dir, n) != 0.0
    ensures NewHitRecord(p, t, u, v, mat, Neg(n), r).normal == NewHitRecord(p, t, u, v, mat, n, r).normal
    ensures NewHitRecord(p, t, u, v, mat, Neg(n), r).frontFace != NewHitRecord(p, t, u, v, mat, n, r).frontFace
  {
    DotNeg(r.dir, n);
    assert Neg(Neg(n)) == n;
  }

  /**
   * What a query over a shorter interval, ending at `s`, would keep of a
   * result: the hit if it lies no further than `s`, and nothing otherwise.
   */
  function Restrict(o: Option<HitRecord>, s: Hi): (res: Option<HitRecord>)
    ensures res.Some? <==> o.Some? && BelowHi(o.value.t, s)
    ensures res.Some? ==> res == o
  {
    if o.Some? && BelowHi(o.value.t, s) then o else None
  }
}
