# A model of a Rust ray tracer's intersection engine

This project models the core of the `raytracer` crate, a "Ray Tracing in One Weekend / The Next Week" renderer written in Rust, and proves properties of that model in Dafny. The core is:

- **The scene query.** A ray is tested against spheres (static and moving), axis-aligned rectangles, six-sided boxes, constant-density media, object lists and bounding-volume hierarchy (BVH) nodes. The query returns the nearest hit record inside a query interval `[t_min, t_max]`.
- **Geometry for the query.** Axis-aligned bounding boxes: their union and the slab test.
- **Front-face rule.** The rule by which a hit record turns its normal against the ray.
- **Materials.** How each material scatters a ray.
- **Perlin noise.** The permutation tables, lattice indices and trilinear blend of the noise generator.
- **The integrator.** The depth-bounded recursive `ray_color`, `clamp`, and the image-row flip.

Each module follows one source file:

| module | source file | form |
|---|---|---|
| `Rays` | `ray.rs` | functions |
| `HitRecords` | `hittable.rs` | datatypes and functions |
| `Scene`, `Hittables` | the `Hittable` trait objects | one datatype, dispatched by `Hittables.Hit` |
| `HittableLists` | `hittable_list.rs` | class with a loop |
| `Aabbs` | `aabb.rs` | functions, plus the slab loop as a method |
| `Spheres` | `sphere.rs` | functions |
| `AaRects` | `aarect.rs` | functions |
| `Boxes` | `bbox.rs` | a method that builds the sides |
| `ConstantMedium` | `constant_medium.rs` | the rebinding of the boundary records as methods |
| `Materials` | `material.rs` | functions |
| `Bvh` | `bvh.rs` | recursive build methods |
| `Perlin` | `perlin.rs` | class over arrays, with loops |
| `Integrator` | `main.rs` | functions |

Modelling conventions:

- **Numbers.** `f64` is modelled by `real`. The query bounds `t_min` and `t_max` are `Lo = NegInf | LoFin(lo)` and `Hi = HiFin(hi) | PosInf`: the source passes only `-f64::INFINITY` as a lower bound and only `f64::INFINITY` as an upper bound. A division whose divisor is zero gives infinity or NaN in the source; in the model (`SafeDiv`) it gives 0.
- **Uninterpreted library functions.** The crate's vector library (`sqrt`, `ln`, `reflect`, `refract`, `unit_vector`, `near_zero`) is a record of uninterpreted functions, `Numeric`. Lemmas that need a fact about it, such as `sqrt(x)^2 == x`, take that fact as a precondition.
- **Randomness.** Every random draw is an input:
  - the `Draw` record of one bounce (a unit vector, a point in the unit sphere, the Schlick draw, and the free-flight draw `rbg` of a medium);
  - the BVH axis at each node of the recursion;
  - the swap targets of `permute`;
  - the `ranfloat` table.
- **Trait objects.** The `Hittable` and `Material` trait objects are datatype variants. `XzRect` and `YzRect`, which `Box_::new` uses, are `XyRect` with its axes permuted (`AaRects.PlaneAxes`).
- **Missing fields in `hittable.rs`.** The record carries `p, normal, t, u, v, mat, front_face`; `sphere.rs` and `constant_medium.rs` use `u`, `v` and the material even though the `hittable.rs` struct lacks them. Every scene object has a `bounding_box`, which `bvh.rs` calls.
- **No `DiffuseLight` in `material.rs`.** `material.rs` defines neither `DiffuseLight` nor `emitted`, but `main.rs` uses both. The model gives `emitted` the usual default, black, for every material except `DiffuseLight`, which emits its colour and does not scatter.

## Findings

| source | as written | input that shows it | evidently intended | confidence | as-written member | corrected member |
|---|---|---|---|---|---|---|
| raytracer/src/aabb.rs:27 | when the running `t_max` is not above the far distance `t1`, `t_max` becomes the running `t_min`, and the check on line 28 rejects the box | the unit box `[0,1]^3`, the ray from `(-1,-1,-1)` in direction `(1,1,1)`, the interval `[0, +inf)`: the ray is at the box's centre at `t = 1.5`, yet the box is rejected | `t_max = t_max.min(t1)` | not executed | Aabbs.DiagonalRayRejected | Aabbs.FixedHit |

The test as written passes only when the far distances of the three axes lie strictly below `t_max` and strictly decrease from x to y to z (`Aabbs.SlabHitNeedsDecreasingExits`).

The intended test is `Aabbs.FixedSlabHit`, run by the loop `Aabbs.FixedHit`. It passes exactly when some distance strictly inside the query interval lies strictly inside all three slabs (`Aabbs.FixedSlabHitMeansCrossing`). For a direction with no zero component, that is exactly when the ray is strictly inside the box at such a distance (`Aabbs.FixedSlabHitIsInteriorCrossing`). It admits the diagonal ray above (`Aabbs.DiagonalRayAdmitted`).

The BVH traversal keeps the test as written, since it models the program as it runs. Every box the test as written admits, the intended test admits too (`Aabbs.SlabsFromImpliesFixed`). So the test as written never admits a box the ray misses (`Aabbs.SlabHitMeansCrossing`); it can only reject boxes the ray does cross. The BVH facts (`Hittables.BvhHitIsClosestLeaf`, `Bvh.BvhMatchesList`) assume that every node's test passes (`SlabsAdmit`).

## Model

| member | source | states |
|---|---|---|
| Rays.NewRay | raytracer/src/ray.rs:19-21 | the ray stores origin, direction and time unchanged |
| Rays.At | raytracer/src/ray.rs:23-25 | `at(t)` is `orig + t*dir` componentwise |
| Rays.AtZero | raytracer/src/ray.rs:23-25 | `at(0)` is the origin |
| Rays.AtIgnoresTime | raytracer/src/ray.rs:23-25 | the point reached does not depend on the ray's time |
| Rays.AtShift | raytracer/src/ray.rs:23-25 | `at(t+s) == at(t) + s*dir` |
| HitRecords.NewHitRecord | raytracer/src/hittable.rs:15-29 | `p, t, u, v` and the material are stored unchanged; `front_face` holds iff `dot(dir, outward) < 0`; the normal is the outward normal on the front face and its negation otherwise; so `dot(dir, normal) <= 0` always |
| HitRecords.NormalIgnoresOrientation | raytracer/src/hittable.rs:16-21 | for a ray not tangent to the surface, negating the outward normal leaves the stored normal unchanged and flips `front_face` |
| Aabbs.NewAabb | raytracer/src/aabb.rs:11-16 | both corners are stored unchanged |
| Aabbs.SurroundingBox | raytracer/src/aabb.rs:35-47 | the union encloses both boxes, and on every axis each of its faces is a face of one of them |
| Aabbs.SurroundingIsSmallest | raytracer/src/aabb.rs:35-47 | any box enclosing both inputs encloses their union |
| Aabbs.SurroundingCommutes | raytracer/src/aabb.rs:35-47 | the union is commutative |
| Aabbs.SurroundingAssociates | raytracer/src/aabb.rs:35-47 | the union is associative |
| Aabbs.SurroundingIdempotent | raytracer/src/aabb.rs:35-47 | the union of a box with itself is that box |
| Aabbs.SurroundingProper | raytracer/src/aabb.rs:35-47 | the union of a proper box (`min <= max`) with any box is proper |
| Aabbs.SlabDistancesOrdered | raytracer/src/aabb.rs:20-25 | after the swap, `t0 <= t1` on an axis with `min <= max` and a non-zero direction component |
| Aabbs.StepRaisesMin | raytracer/src/aabb.rs:26 | one axis never lowers the running `t_min`, and leaves it at least `t0` |
| Aabbs.StepRejectsFarExit | raytracer/src/aabb.rs:27-30 | as written, an axis whose far distance is not below the running `t_max` rejects the box |
| Aabbs.Hit | raytracer/src/aabb.rs:18-33 | the loop over the three axes returns exactly the slab test `SlabHit` |
| Aabbs.SlabHitNeedsDecreasingExits | raytracer/src/aabb.rs:27-32 | a passing test has its x far distance below `t_max` and the far distances strictly decreasing from x to y to z |
| Aabbs.DiagonalRayRejected | raytracer/src/aabb.rs:27 | a ray through the centre of the unit box is rejected by the test as written |
| Aabbs.CrossingsOrder | raytracer/src/aabb.rs:20-25 | a positive direction component keeps the two plane distances in order; a negative one swaps them |
| Aabbs.InsideCrossings | raytracer/src/aabb.rs:20-25 | on one axis with a non-zero direction, `t` is strictly between the two distances iff the ray's coordinate at `t` is strictly between the two planes |
| Aabbs.InsideSlabIsInsideBox | raytracer/src/aabb.rs:20-25 | the same, stated for a box, a ray and an axis |
| Aabbs.FixedHit | raytracer/src/aabb.rs:18-33 | the loop with line 27 as intended (`t_max.min(t1)`) returns true iff some distance strictly inside the query interval lies strictly inside all three slabs |
| Aabbs.FixedSlabHitMeansCrossing | raytracer/src/aabb.rs:18-33 | the intended test passes iff some distance strictly inside the query interval lies strictly inside all three slabs |
| Aabbs.FixedSlabHitIsInteriorCrossing | raytracer/src/aabb.rs:18-33 | for a direction with no zero component, the intended test passes iff the ray is strictly inside the box at some distance strictly inside the query interval |
| Aabbs.SlabsFromImpliesFixed | raytracer/src/aabb.rs:26-30 | every box the test as written admits, the intended test admits |
| Aabbs.SlabHitMeansCrossing | raytracer/src/aabb.rs:18-33 | the test as written never admits a box the ray misses inside the query interval |
| Aabbs.DiagonalRayAdmitted | raytracer/src/aabb.rs:27 | the intended test admits the diagonal ray that the test as written rejects |
| Spheres.SurfaceRecord | raytracer/src/sphere.rs:55-61 | the record lies on the ray at the root, carries the material, and has the normal `(p - center)/radius` turned against the ray |
| Spheres.BallHit | raytracer/src/sphere.rs:35-62 | no hit iff the discriminant is negative or neither root is in the interval; a hit is in the interval; the nearer root is taken whenever it is in the interval, the farther root only otherwise |
| Spheres.NearBeforeFar | raytracer/src/sphere.rs:47-49 | with a non-negative square root, the nearer root is not beyond the farther one |
| Spheres.BallHitRestricts | raytracer/src/sphere.rs:47-53 | a query ending at `s <= t_max` finds exactly the longer query's hit when that lies no further than `s`, and nothing otherwise |
| Spheres.RootsSolveQuadratic | raytracer/src/sphere.rs:36-49 | given `sqrtd^2 == disc` and `a != 0`, both roots solve `a t^2 + 2 half_b t + c = 0` |
| Spheres.OnSurfaceAt | raytracer/src/sphere.rs:36-39 | a solution of the quadratic is a point at distance `radius` from the centre |
| Spheres.BallHitOnSurface | raytracer/src/sphere.rs:36-57 | given the square-root fact, the hit point is at distance `radius` from the centre |
| Spheres.OutwardNormalTimesRadius | raytracer/src/sphere.rs:57 | the outward normal scaled by the radius is the radial vector |
| Spheres.BallBox | raytracer/src/sphere.rs:64-70 | the box is `center -/+ (radius, radius, radius)` |
| Spheres.BallBoxContains | raytracer/src/sphere.rs:64-70 | every point on or inside a sphere of non-negative radius lies in its box |
| Spheres.CenterAtEndpoints | raytracer/src/sphere.rs:94-97 | the moving centre is `center0` at `time0` and `center1` at `time1` when the times differ |
| Spheres.MovingBallBox | raytracer/src/sphere.rs:130-141 | the moving sphere's box encloses the static boxes at both times |
| AaRects.PlaneAxes | raytracer/src/aarect.rs:34-44 | the two in-plane axes and the normal axis of a rectangle are three distinct axes |
| AaRects.InPlane | raytracer/src/aarect.rs:58-61 | the point built from in-plane and normal coordinates has those coordinates |
| AaRects.UnitAxis | raytracer/src/aarect.rs:45 | the outward normal is the unit vector of the normal axis |
| AaRects.RectHit | raytracer/src/aarect.rs:33-55 | a hit iff the plane crossing lies in the query interval and its in-plane point in the closed rectangle; the hit is `r.at(t)` at that crossing, carries the material, has the unit normal turned against the ray, and its `u, v` are the normalised in-plane coordinates |
| AaRects.RectHitRestricts | raytracer/src/aarect.rs:34-37 | a query ending at `s <= t_max` keeps the hit exactly when it lies no further than `s` |
| AaRects.RectUvInUnitSquare | raytracer/src/aarect.rs:43-44 | on a non-degenerate rectangle, `u` and `v` lie in `[0,1]` |
| AaRects.RectBox | raytracer/src/aarect.rs:57-63 | the box has the exact in-plane extents and is padded by 0.0001 on each side of the plane |
| AaRects.RectHitInPlane | raytracer/src/aarect.rs:34 | for a ray not parallel to the plane, the crossing point's normal coordinate is `k` |
| AaRects.RectHitInBox | raytracer/src/aarect.rs:33-63 | for such a ray, every hit lies in the rectangle's bounding box |
| AaRects.CoordsOnRay | raytracer/src/aarect.rs:38-39 | the in-plane coordinates are those of the point on the ray |
| Materials.LambertianScatter | raytracer/src/material.rs:33-42 | always scatters, from `rec.p` at `r_in.tm`, with attenuation `albedo`; the direction is `normal + sample`, or `normal` when that is near zero |
| Materials.NewMetal | raytracer/src/material.rs:51-56 | the stored fuzz is the given fuzz below 1 and 1 otherwise, so it is at most 1 |
| Materials.NewMetalKeepsNegativeFuzz | raytracer/src/material.rs:54 | the constructor only caps the fuzz from above: a negative fuzz is stored unchanged |
| Materials.MetalScatter | raytracer/src/material.rs:60-73 | scatters iff the fuzzed mirror direction has a positive dot product with the normal, from `rec.p` at `r_in.tm`, with attenuation `albedo` |
| Materials.ReflectanceAtNormalIncidence | raytracer/src/material.rs:85-89 | `reflectance(1, n) == ((1-n)/(1+n))^2` |
| Materials.ReflectanceIsProbability | raytracer/src/material.rs:85-89 | for a cosine in `[0,1]` and a non-negative index, the reflectance lies in `[0,1]` |
| Materials.DielectricScatter | raytracer/src/material.rs:93-114 | always scatters, untinted, from `rec.p` at `r_in.tm`; the ratio is `1/ir` on the front face and `ir` otherwise; the mirror direction is taken when refraction is impossible or the reflectance exceeds the draw, the refracted one otherwise |
| Materials.DielectricReflectsWhenCannotRefract | raytracer/src/material.rs:103-107 | when `ratio * sin_theta > 1` the ray is reflected whatever the draw |
| Materials.DielectricRefractsWhenAllowed | raytracer/src/material.rs:103-109 | on either face, with a draw in `[0, 1)`, refraction possible at the face's index ratio and the Schlick reflectance not above the draw, the ray is refracted with that ratio |
| Materials.NoReflection | raytracer/src/material.rs:103-105 | when refraction is possible and the reflectance does not exceed the draw, the mirror branch is not taken |
| Materials.Scatter | raytracer/src/material.rs:32-114 | every scattered ray starts at `rec.p` and keeps `r_in.tm`; Lambertian, dielectric and isotropic materials always scatter; a diffuse light never does |
| Materials.Emitted | raytracer/src/main.rs:380 | black for every material except a diffuse light, which emits its colour |
| Materials.ScatterAttenuation | raytracer/src/material.rs:38-113 | whenever a material scatters, it attenuates by its albedo (white for a dielectric) |
| Materials.EmittedIgnoresPosition | raytracer/src/main.rs:380 | the emission does not depend on where the surface is hit |
| ConstantMedium.NewCol | raytracer/src/constant_medium.rs:30-36 | the boundary is stored, the phase function is isotropic in the given colour, and `neg_inv_density * d == -1` (negative for a positive density) |
| ConstantMedium.ClampedEntry | raytracer/src/constant_medium.rs:48-58 | the entry is raised to `t_min` and kept when already there |
| ConstantMedium.ClampedExit | raytracer/src/constant_medium.rs:59-69 | the exit is lowered to `t_max` and kept when already there |
| ConstantMedium.InteriorHit | raytracer/src/constant_medium.rs:48-101 | rebinding the two boundary records step by step (clamps, early `None`, raise to 0, free flight) computes exactly `MediumInterior` |
| ConstantMedium.SampleFlight | raytracer/src/constant_medium.rs:84-101 | the sampled free flight computes exactly `FreeFlight` |
| ConstantMedium.EntryFrom | raytracer/src/constant_medium.rs:73-83 | the entry after the raise to 0 is non-negative and not before the clamped entry |
| ConstantMedium.FreeFlight | raytracer/src/constant_medium.rs:90-101 | the event lies on the ray, with a zero normal, `u = v = 0`, `front_face` set and the phase function as material |
| ConstantMedium.MediumRejectsLongFlight | raytracer/src/constant_medium.rs:84-89 | a sampled distance beyond `(exit - entry) * |dir|` gives no hit |
| ConstantMedium.FreeFlightInSegment | raytracer/src/constant_medium.rs:86-90 | with a non-negative density, `ln(rbg) <= 0` and a non-zero direction, the event lies between entry and exit |
| ConstantMedium.MediumHitInSegment | raytracer/src/constant_medium.rs:48-90 | under the same conditions, the medium's hit lies between the clamped entry and exit |
| ConstantMedium.FreeFlightByDistance | raytracer/src/constant_medium.rs:84-90 | the flight is rejected exactly when its distance along the ray exceeds the segment |
| ConstantMedium.MediumInteriorRestricts | raytracer/src/constant_medium.rs:59-90 | for a positive density and `ln(rbg) < 0`, a query ending at `s <= t_max` keeps the event exactly when it lies no further than `s` |
| ConstantMedium.IsotropicScatter | raytracer/src/constant_medium.rs:127-137 | always scatters from `rec.p` at `r_in.tm` in the sampled direction, with attenuation the albedo |
| HittableLists.HittableList.constructor | raytracer/src/hittable_list.rs:10-14 | a new list is empty |
| HittableLists.HittableList.Add | raytracer/src/hittable_list.rs:16-18 | the object is appended at the end and the earlier entries are unchanged |
| HittableLists.HittableList.Hit | raytracer/src/hittable_list.rs:22-34 | the closest-so-far loop computes `ListHit`; an empty list returns `None` |
| Hittables.ListHit | raytracer/src/hittable_list.rs:22-34 | the scan of no objects finds nothing |
| Hittables.Combine | raytracer/src/bvh.rs:79-90 | `None` iff both children miss; otherwise one child's hit, the left one only when strictly nearer |
| Hittables.CombineIsPick | raytracer/src/bvh.rs:79-90 | the BVH choice between the children is the list scan's choice between an earlier and a later hit |
| Hittables.Pick | raytracer/src/hittable_list.rs:27-30 | one scan step keeps the nearer of the running hit and the new hit, the new one on a tie |
| Hittables.PickAssociates | raytracer/src/hittable_list.rs:26-31 | the scan step is associative, so a list can be scanned in parts |
| Hittables.BvhMissSkipsChildren | raytracer/src/bvh.rs:73-75 | a node whose box test fails reports no hit, whatever its children |
| Hittables.BoxHitIsSidesScan | raytracer/src/bbox.rs:87-89 | a box hits exactly what the scan of its sides hits |
| Hittables.MediumNeedsTwoBoundaryHits | raytracer/src/constant_medium.rs:46-47 | without a first boundary hit over the whole line, or a second one starting 0.0001 past it, the medium is missed |
| Hittables.HitInInterval | raytracer/src/hittable_list.rs:27 | given `ln(rbg) <= 0`, a non-zero direction and non-negative densities, every object's hit lies in its query interval |
| Hittables.ScanInInterval | raytracer/src/hittable_list.rs:26-31 | under the same conditions, the scan's result lies in the query interval |
| Hittables.ClosestIsMinimum | raytracer/src/hittable_list.rs:22-34 | the reference minimum is `None` iff no object hits, and otherwise an object's hit no further than any object's hit |
| Hittables.ClosestAppend | raytracer/src/hittable_list.rs:26-31 | the minimum over a concatenation is the nearer of the two parts' minima |
| Hittables.ClosestDistanceOrderFree | raytracer/src/hittable_list.rs:22-34 | the distance of the closest hit depends on which objects there are, not on their order |
| Hittables.ScanIsClosest | raytracer/src/hittable_list.rs:24-30 | for objects that still hit over a shorter interval (well-nested), each prefix of the scan is the minimum over that prefix, and `closest_so_far` never rises above `t_max` |
| Hittables.ListHitIsMinimum | raytracer/src/hittable_list.rs:22-34 | for well-nested objects, the list hit is `None` iff no object hits; otherwise it lies in the interval, is one object's hit and is no further than any object's hit |
| Hittables.ListHitLastMinimumWins | raytracer/src/hittable_list.rs:26-31 | the result is the hit of the last object that hits at the minimum distance |
| Hittables.LastMinimumWins | raytracer/src/hittable_list.rs:26-31 | when no object hits nearer than `m`, object `j` hits at `m` and every later object misses or hits further, the scan of any prefix past `j` keeps `j`'s hit |
| Hittables.MinimumBeatsPrefix | raytracer/src/hittable_list.rs:27-30 | a hit at `m`, when no earlier object hits nearer, replaces whatever the earlier objects found (a tie goes to the later object) |
| Hittables.NestedShrinks | raytracer/src/hittable_list.rs:27 | being well-nested over an interval carries over to every shorter interval |
| Hittables.ClosestRestricts | raytracer/src/hittable_list.rs:27-29 | the minimum over a shorter interval is the longer interval's minimum, kept if it lies no further |
| Hittables.ListHitNested | raytracer/src/hittable_list.rs:22-34 | a list of well-nested objects is itself well-nested |
| Hittables.SphereNested | raytracer/src/sphere.rs:47-53 | a sphere is well-nested |
| Hittables.RectNested | raytracer/src/aarect.rs:34-42 | a rectangle is well-nested |
| Hittables.MediumNested | raytracer/src/constant_medium.rs:48-90 | a medium of positive density is well-nested when `ln(rbg) < 0` |
| Hittables.HitMaterialSatisfies | raytracer/src/hittable.rs:15-29 | a hit carries the material of one of the scene's primitives (or a medium's phase function) |
| Hittables.ScanMaterialSatisfies | raytracer/src/hittable_list.rs:26-31 | the same holds for the list scan |
| Hittables.Leaves | raytracer/src/bvh.rs:59-65 | every tree has at least one leaf object |
| Hittables.BvhHitIsClosestLeaf | raytracer/src/bvh.rs:72-91 | when every node's box test passes, the tree's hit is the minimum over its leaf objects |
| Hittables.ListBoxExists | raytracer/src/bvh.rs:52 | a list has a box iff it is non-empty and all its objects have one |
| Hittables.ListBoxEncloses | raytracer/src/bvh.rs:52 | a list's box, when it exists, encloses each object's box |
| Hittables.BoxedPrimitives | raytracer/src/sphere.rs:64-70 | spheres, rectangles, boxes and BVH nodes always have a bounding box (the other spans have their own rows: `AaRects.RectBox` for aarect.rs:57-63, `Boxes.BoxBoundsAreCorners` for bbox.rs:83-85, `Bvh.BvhBoundingBoxIsStored` for bvh.rs:93-96) |
| Hittables.MediumBoxIsBoundarys | raytracer/src/constant_medium.rs:40-42 | a medium's box is its boundary's box |
| Bvh.Insert | raytracer/src/bvh.rs:51-55 | inserting adds exactly one occurrence of the object |
| Bvh.InsertSorted | raytracer/src/bvh.rs:51-55 | inserting into a sorted list keeps it sorted |
| Bvh.SortBy | raytracer/src/bvh.rs:51-55 | the sort returns the same objects, ordered by box minimum on the axis |
| Bvh.WithKeyInsert | raytracer/src/bvh.rs:51-55 | an inserted object goes in front of the objects of its own key, and the objects of every key keep their order |
| Bvh.SortByIsStable | raytracer/src/bvh.rs:51-55 | the sort is stable: for every key value, the objects with that key keep their order |
| Bvh.StableSortIsUnique | raytracer/src/bvh.rs:51-55 | two sorted sequences with the same objects of every key, in the same order, are equal |
| Bvh.StableSortIsSortBy | raytracer/src/bvh.rs:51-55 | any sorted ordering that keeps the objects of each key in order, as the library's stable `sort_by` returns, is the model's sort |
| Bvh.LeafBagSort | raytracer/src/bvh.rs:51-55 | sorting keeps the leaf objects |
| Bvh.LeafBagAppend | raytracer/src/bvh.rs:56-58 | the leaf objects of a split list are those of its two halves |
| Bvh.LeafBagOfPlain | raytracer/src/bvh.rs:16-18 | for a list without BVH nodes, the leaf objects are the list's objects |
| Bvh.SplitIsOrdered | raytracer/src/bvh.rs:56-58 | with two or more objects both halves are non-empty and shorter, and every left key is at most every right key |
| Bvh.Init | raytracer/src/bvh.rs:20-68 | zero objects panic; one object is returned as it is; two or more panic iff some object has no box; a built tree holds exactly the given objects and its box encloses each one's box |
| Bvh.SortAndSplit | raytracer/src/bvh.rs:50-65 | the node's children hold the first `len/2` and the remaining sorted objects, and its box is the union of their boxes |
| Bvh.SingleKeepsObject | raytracer/src/bvh.rs:49 | a single object holds itself and its box encloses its box |
| Bvh.JoinKeepsObjects | raytracer/src/bvh.rs:59-65 | the joined node holds both halves' objects and its box encloses each one |
| Bvh.EnclosesHalves | raytracer/src/bvh.rs:61-64 | a box enclosing both halves' boxes encloses every object |
| Bvh.NewBoxed | raytracer/src/bvh.rs:16-18 | builds from the list's objects: panics iff the list is empty or has a boxless object among two or more; otherwise holds exactly its objects |
| Bvh.BvhBoundingBoxIsStored | raytracer/src/bvh.rs:93-96 | a node's bounding box is always `Some` of its stored box |
| Bvh.BvhMatchesList | raytracer/src/bvh.rs:72-91 | a tree over the same objects as a well-nested list, whose box tests pass, misses iff the list misses, and otherwise hits at the same distance |
| Boxes.NewBox | raytracer/src/bbox.rs:18-79 | the corners are stored unchanged, and the six sides are the far and near faces for z, y and x, in that order, all with the box's material |
| Boxes.EveryFace | raytracer/src/bbox.rs:24-76 | every side is a face of the box |
| Boxes.BoxBoundsAreCorners | raytracer/src/bbox.rs:83-85 | the bounding box is the two corners, unpadded |
| Boxes.BoxHitOnSurface | raytracer/src/bbox.rs:87-89 | for ordered corners and a ray parallel to no face, a hit lies in the bounding box, on one of the six face planes, and carries the box's material |
| Boxes.ScanOnFaces | raytracer/src/bbox.rs:87-89 | the same for each step of the scan of the sides |
| Boxes.FaceHitOnSurface | raytracer/src/aarect.rs:33-55 | a hit on one face lies in the box and on the face's plane |
| Perlin.Iota | raytracer/src/perlin.rs:87-89 | the initial table holds `0..n-1` in order |
| Perlin.Swap | raytracer/src/perlin.rs:101 | a swap exchanges two entries and leaves the others |
| Perlin.SwapPermutes | raytracer/src/perlin.rs:101 | a swap keeps the multiset of entries |
| Perlin.ShuffledPermutes | raytracer/src/perlin.rs:96-106 | the shuffle keeps the length and the multiset of entries, and leaves the entries past the start index unchanged |
| Perlin.Permute | raytracer/src/perlin.rs:96-106 | the in-place loop computes the shuffle, swapping each `i` from `n-1` down to 1 with a target below `i`, and keeps the multiset |
| Perlin.PermTableInRange | raytracer/src/perlin.rs:84-94 | a permutation table has 256 entries, each in `[0, 255]` |
| Perlin.PerlinGeneratePerm | raytracer/src/perlin.rs:84-94 | the fresh table is the shuffle of `0..255`, a permutation of it |
| Perlin.LatticeIndex | raytracer/src/perlin.rs:51-53 | `x & 255` lies in `[0, 255]` and is congruent to `x` modulo 256, negative `x` included |
| Perlin.XorBits | raytracer/src/perlin.rs:55-58 | the bitwise XOR of the low `n` bits of two numbers is below `2^n` |
| Perlin.XorZero | raytracer/src/perlin.rs:55-58 | XOR with 0 leaves a number below `2^n` unchanged |
| Perlin.XorSelf | raytracer/src/perlin.rs:55-58 | XOR of a number with itself is 0 |
| Perlin.Xor3 | raytracer/src/perlin.rs:55-58 | the XOR of three table entries, each in `[0, 255]`, lies in `[0, 255]`, so the `ranfloat` index is in bounds |
| Perlin.SmoothInUnit | raytracer/src/perlin.rs:67-69 | for `u` in `[0,1]`, the smoothstep `u*u*(3-2u)` lies in `[0,1]`, and is 0 at 0 and 1 at 1 |
| Perlin.WeightIsMix | raytracer/src/perlin.rs:74-77 | the source's weight `i*uu + (1-i)*(1-uu)` is `uu` for `i = 1` and `1-uu` for `i = 0` |
| Perlin.MixIsCornerWeight | raytracer/src/perlin.rs:74-77 | the source's product of the three axis weights at `(i, j, k)` is the weight of corner `4i + 2j + k` |
| Perlin.CornerWeightNonNegative | raytracer/src/perlin.rs:74-77 | for smoothed coordinates in `[0,1]`, every corner weight is non-negative |
| Perlin.WeightsSumToOne | raytracer/src/perlin.rs:74-77 | the two weights on an axis sum to 1 and lie in `[0,1]` |
| Perlin.CornerBits | raytracer/src/perlin.rs:71-73 | the loop's eighth corner `m` is `4i + 2j + k` |
| Perlin.Corners | raytracer/src/perlin.rs:71-73 | the eight corners of the cube, in loop order |
| Perlin.SetCorner | raytracer/src/perlin.rs:55 | storing one entry of the 2x2x2 array changes that entry and no other |
| Perlin.TrilinearInterp | raytracer/src/perlin.rs:65-82 | the nested loops compute the blend of the eight corners with the smoothed weights |
| Perlin.WeightTotalIsOne | raytracer/src/perlin.rs:74-77 | the eight corner weights sum to 1 |
| Perlin.BlendBounded | raytracer/src/perlin.rs:71-81 | a blend of values in `[0, hi]` lies in `[0, hi * total weight]` |
| Perlin.BlendAtLatticePoint | raytracer/src/perlin.rs:71-81 | at a lattice point the blend is the first corner's value |
| Perlin.BlendInUnit | raytracer/src/perlin.rs:65-82 | the blend of values in `[0,1)` lies in `[0,1)`, and at a lattice point it is the corner's value |
| Perlin.Perlin.constructor | raytracer/src/perlin.rs:15-29 | `ranfloat` holds the 256 draws in `[0,1)`, and each axis table is the shuffle of `0..255` by its targets |
| Perlin.Perlin.LatticeValue | raytracer/src/perlin.rs:55-58 | the value at a lattice point lies in `[0,1)` |
| Perlin.Perlin.FillCorners | raytracer/src/perlin.rs:46-61 | the cube holds the lattice values of the eight corners around `(i, j, k)` |
| Perlin.Perlin.Noise | raytracer/src/perlin.rs:31-63 | the noise lies in `[0,1)`, and at an integral point it is the lattice value there |
| Integrator.RayColorCases | raytracer/src/main.rs:374-390 | black when `depth <= 0`; the background on a miss; exactly `emitted` when the material does not scatter; `emitted + attenuation * ray_color(scattered, depth-1)` otherwise; the scene is queried over `[0.001, +inf)` |
| Integrator.RayColorDark | raytracer/src/main.rs:374-390 | with no light in the scene and a black background, the colour is black at every depth |
| Integrator.ShadeDark | raytracer/src/main.rs:379-389 | one level of the same: a non-emitting hit under a black background shades black |
| Integrator.RayColorBounded | raytracer/src/main.rs:374-390 | with albedos in `[0,1]`, emissions in `[0,e]` and a background in `[0,b]`, every component lies in `[0, b + depth*e]` |
| Integrator.ShadeBounded | raytracer/src/main.rs:379-389 | one level of the same bound |
| Integrator.BudgetStep | raytracer/src/main.rs:383 | one more bounce raises the bound by one emission |
| Integrator.Clamp | raytracer/src/main.rs:392-400 | the result lies in `[min, max]` when `min <= max`, is `x` when `x` is inside, `min` below it, and `max` above it when `min <= max` |
| Integrator.FlipRow | raytracer/src/main.rs:356 | for `j` in `[0, height)`, the written row is in `[0, height)`, and rows are mirrored |

`ray_color` terminates because the one recursive call, in `Integrator.Shade`, lowers `depth`; Dafny checks this as the `decreases` of `RayColor` and `Shade`.

## Left out

- **Floating point.** `f64` rounding, NaN and infinity are not modelled. A zero divisor gives 0 (`SafeDiv`) instead of infinity or NaN. This affects:
  - the slab distances for a direction component of 0 (`aabb.rs:20`);
  - the plane crossing of a ray parallel to a rectangle (`aarect.rs:34`);
  - `MovingSphere::center` with `time0 == time1` (`sphere.rs:96`).
  Parallel rays are therefore excluded wherever a lemma needs a crossing (`Oblique`, the `!= 0.0` preconditions).
- **Casts and powers.** The `f32` cast before `ln` (`constant_medium.rs:86`) is not modelled. `powf(5.0)` is the fifth power. The `i32` casts of `floor` in `noise` are unbounded integers, without saturation.
- **Library functions.** `sqrt`, `ln`, `reflect`, `refract`, `unit_vector`, `near_zero`, `random_unit_vector`, `random_in_unit_sphere` and `write_color` are uninterpreted or inputs; their sources are not part of this model.
- **Random distributions.** Draws are inputs and their distributions are not modelled. This covers:
  - whether the BVH axis is uniform;
  - whether `permute` produces a uniform shuffle;
  - `rbg`. The model draws `rbg` once per scene query and shares it among all media, where the source draws it afresh in each medium's `hit`.
- **BVH comparator panics.** The panic of the comparator's `partial_cmp().unwrap()` on NaN is not modelled. The panic of `unwrap` on a missing box is modelled as `Panic` before sorting.
- **Vectors and ownership.** `Vec` ownership, `split_off` and `Arc` sharing are modelled on values (`seq`). The in-place sort is a functional insertion sort with the same ordering key, and is stable like `sort_by`, so it returns the same order, equal keys included (`Bvh.StableSortIsSortBy`).
- **`HittableList::bounding_box`.** `hittable_list.rs` does not define it. The model's `ListBox` is the union of the objects' boxes, `None` for an empty list or a boxless object.
- **Perlin `c` array.** The array in `noise` is a value (`Cube`, nested sequences), since a Rust array is a value. The `Vec` pushes of `perlin_generate_perm` and `new` are writes into a preallocated array.
- **Out of scope.** `Sphere::get_sphere_uv` (trigonometry) is not part of this model; the `u, v` of a sphere hit come from an uninterpreted map. Also outside the model: `camera.rs`, `texture.rs`, the scene builders, the pixel loop, gamma correction, quantisation and image I/O of `main.rs`.
- **Hittables.HitInInterval**, **Hittables.ScanInInterval**: state the interval property only for scenes whose media have non-negative density, and only for `ln(rbg) <= 0` and a non-zero direction. A medium of negative density can report an event before the entry.
- **Bvh.BvhMatchesList**, **Hittables.BvhHitIsClosestLeaf**: assume every node's box test passes, because the slab test as written (`aabb.rs:27`, see Findings) can reject a box the ray crosses. The ties between equal distances may go to different objects, so only the distance is claimed equal.
