// raytracer/src/ray.rs: a ray is an origin, a direction and a time.
module Rays {
  import opened Vectors

  datatype Ray = Ray(orig: Vec3, dir: Vec3, tm: real)

  /** `Ray::new` stores its three arguments unchanged. */
  function NewRay(orig: Vec3, dir: Vec3, tm: real): (r: Ray)
    ensures r.orig == orig && r.dir == dir && r.tm == tm
  {
    Ray(orig, dir, tm)
  }

  /** `Ray::at`: the point reached after travelling `t` direction lengths. */
  function At(r: Ray, t: real): (p: Vec3)
    ensures p.x == r.orig.x + t * r.dir.x
    ensures p.y == r.orig.y + t * r.dir.y
    ensures p.z == r.orig.z + t * r.dir.z
  {
    Add(r.orig, Scale(t, r.dir))
  }

  lemma AtZero(r: Ray)
    ensures At(r, 0.0) == r.orig
  {
  }

  /** The time of a ray plays no part in where it is. */
  lemma AtIgnoresTime(orig: Vec3, dir: Vec3, tm1: real, tm2: real, t: real)
    ensures At(Ray(orig, dir, tm1), t) == At(Ray(orig, dir, tm2), t)
  {
  }

  /** Travelling `t` and then `s` more lands where travelling `t + s` does. */
  lemma AtShift(r: Ray, t: real, s: real)
    ensures At(r, t + s) == Add(At(r, t), Scale(s, r.dir))
  {
    var p, q := At(r, t + s), Add(At(r, t), Scale(s, r.dir));
    assert p.x == q.x && p.y == q.y && p.z == q.z;
  }
}
