// The `Hittable` trait objects of the renderer, as variants of one datatype.
// Their hit tests and bounding boxes are in module Hittables.
module Scene {
  import opened Vectors
  import opened Aabbs
  import opened HitRecords

  /**
   * The plane of an axis-aligned rectangle. `XY` is `XyRect`
   * (raytracer/src/aarect.rs); `XZ` and `YZ` are the same rectangle with the
   * axes permuted (see AaRects.PlaneAxes).
   */
  datatype Plane = XY | XZ | YZ

  datatype Hittable =
    | Sphere(center: Vec3, radius: real, mat: Material)
    | MovingSphere(center0: Vec3, center1: Vec3, time0: real, time1: real, radius: real, mat: Material)
      /** A rectangle `[a0,a1] x [b0,b1]` in the plane where the third axis equals `k`. */
    | Rect(plane: Plane, a0: real, a1: real, b0: real, b1: real, k: real, mat: Material)
      /** `Box_`: its two corners and its six sides. */
    | Box(boxMin: Vec3, boxMax: Vec3, sides: seq<Hittable>)
      /** `ConstantMediun`. */
    | Medium(boundary: Hittable, phase: Material, negInvDensity: real)
      /** `HittableList` used as a hittable. */
    | List(objects: seq<Hittable>)
    | BvhNode(left: Hittable, right: Hittable, box: Aabb)
}
