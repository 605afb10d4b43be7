// raytracer/src/bvh.rs: building the bounding-volume hierarchy. Traversal
// (`BVHNode::hit`) and `bounding_box` are the BvhNode cases of Hittables.Hit
// and Hittables.BoundingBox; this module holds the recursive build and the
// facts that tie a built tree to the list it was built from.
module Bvh {
  import opened Vectors
  import opened Intervals
  import opened Rays
  import Aabbs
  import opened Hittables
  import opened HitRecords
  import opened Scene
  import opened Wrappers
  import HittableLists

  /** What `BVHNode::init` ends in: the root of the tree, or a panic. */
  datatype Built = Built(node: Hittable) | Panic

  /**
   * The axis drawn at line 44 by every call of `init`, looked up by the
   * call's place in the recursion: the turns (false for left, true for right)
   * taken from the first call.
   */
  type AxisDraws = seq<bool> -> Axis

  predicate HasBox(o: Hittable, time0: real, time1: real)
  {
    BoundingBox(o, time0, time1).Some?
  }

  /** No object makes `bounding_box(..).unwrap()` panic. */
  predicate AllBoxed(objs: seq<Hittable>, time0: real, time1: real)
  {
    forall i :: 0 <= i < |objs| ==> HasBox(objs[i], time0, time1)
  }

  /**
   * The sort key of lines 52-53: the minimum corner of the object's box on
   * `axis`. An object without a box never reaches the sort (Init panics
   * first, as the comparator's `unwrap` does); it gets the key 0.
   */
  function MinKey(o: Hittable, axis: Axis, time0: real, time1: real): real
  {
    if HasBox(o, time0, time1) then Get(BoundingBox(o, time0, time1).value.minimum, axis) else 0.0
  }

  /** The comparator of lines 51-55, as a key function. */
  function KeyOn(axis: Axis, time0: real, time1: real): Hittable -> real
  {
    o => MinKey(o, axis, time0, time1)
  }

  predicate SortedBy(s: seq<Hittable>, key: Hittable -> real)
  {
    forall i, j :: 0 <= i < j < |s| ==> key(s[i]) <= key(s[j])
  }

  /**
   * Inserts `o` before the first element whose key is not smaller than its
   * own, so `o` lands in front of the objects whose key equals its key.
   */
  function Insert(o: Hittable, s: seq<Hittable>, key: Hittable -> real): (r: seq<Hittable>)
    ensures multiset(r) == multiset(s) + multiset{o}
    ensures |r| == |s| + 1 && (r[0] == o || (|s| > 0 && r[0] == s[0]))
  {
    if |s| == 0 || key(o) <= key(s[0]) then [o] + s
    else
      assert s == [s[0]] + s[1..];
      [s[0]] + Insert(o, s[1..], key)
  }

  /** Inserting into a sorted sequence keeps it sorted. */
  lemma {:induction false} InsertSorted(o: Hittable, s: seq<Hittable>, key: Hittable -> real)
    requires SortedBy(s, key)
    ensures SortedBy(Insert(o, s, key), key)
    decreases |s|
  {
    if |s| > 0 && key(o) > key(s[0]) {
      var rest := Insert(o, s[1..], key);
      InsertSorted(o, s[1..], key);
      var r := [s[0]] + rest;
      forall j | 0 <= j < |rest| ensures key(s[0]) <= key(rest[j]) {
        if rest[0] == o {
          assert key(s[0]) <= key(rest[0]);
        } else {
          assert key(s[0]) <= key(s[1]);
        }
        if j > 0 {
          assert key(rest[0]) <= key(rest[j]);
        }
      }
      forall i, j | 0 <= i < j < |r| ensures key(r[i]) <= key(r[j]) {
        if i == 0 {
          assert r[j] == rest[j - 1];
        } else {
          assert r[i] == rest[i - 1] && r[j] == rest[j - 1];
        }
      }
    }
  }

  /** The objects of `s` whose key is `k`, in their order in `s`. */
  function WithKey(s: seq<Hittable>, key: Hittable -> real, k: real): seq<Hittable>
  {
    if |s| == 0 then []
    else (if key(s[0]) == k then [s[0]] else []) + WithKey(s[1..], key, k)
  }

  /**
   * Insertion puts `o` in front of every object of its own key and leaves
   * the order of every key's objects alone.
   */
  lemma {:induction false} WithKeyInsert(o: Hittable, s: seq<Hittable>, key: Hittable -> real, k: real)
    ensures WithKey(Insert(o, s, key), key, k) == (if key(o) == k then [o] else []) + WithKey(s, key, k)
    decreases |s|
  {
    if |s| == 0 || key(o) <= key(s[0]) {
      var r := [o] + s;
      assert r[0] == o && r[1..] == s;
    } else {
      var rest := Insert(o, s[1..], key);
      var r := [s[0]] + rest;
      assert r[0] == s[0] && r[1..] == rest;
      WithKeyInsert(o, s[1..], key, k);
    }
  }

  /**
   * `src_objects.sort_by(..)` at lines 51-55: the result is ordered by the
   * key and holds the same objects; SortByIsStable shows that objects with
   * equal keys keep their order, as the library's stable sort keeps them.
   */
  function SortBy(s: seq<Hittable>, key: Hittable -> real): (r: seq<Hittable>)
    ensures SortedBy(r, key)
    ensures multiset(r) == multiset(s) && |r| == |s|
  {
    if |s| == 0 then []
    else
      assert s == [s[0]] + s[1..];
      InsertSorted(s[0], SortBy(s[1..], key), key);
      Insert(s[0], SortBy(s[1..], key), key)
  }

  /** The sort is stable: for every key value, the objects with that key keep their order. */
  lemma {:induction false} SortByIsStable(s: seq<Hittable>, key: Hittable -> real, k: real)
    ensures WithKey(SortBy(s, key), key, k) == WithKey(s, key, k)
    decreases |s|
  {
    if |s| > 0 {
      SortByIsStable(s[1..], key, k);
      WithKeyInsert(s[0], SortBy(s[1..], key), key, k);
    }
  }

  /** No object of `s` has key `k` when every key of `s` exceeds `k`. */
  lemma {:induction false} WithKeyAbsent(s: seq<Hittable>, key: Hittable -> real, k: real)
    requires forall i :: 0 <= i < |s| ==> key(s[i]) > k
    ensures WithKey(s, key, k) == []
    decreases |s|
  {
    if |s| > 0 {
      WithKeyAbsent(s[1..], key, k);
    }
  }

  /** The first object of `s` heads the objects of its own key. */
  lemma WithKeyHead(s: seq<Hittable>, key: Hittable -> real)
    requires |s| > 0
    ensures WithKey(s, key, key(s[0])) != [] && WithKey(s, key, key(s[0]))[0] == s[0]
  {
  }

  /** Two sequences with the same head and the same objects of key `k` agree on key `k` after the head. */
  lemma WithKeyTails(a: seq<Hittable>, b: seq<Hittable>, key: Hittable -> real, k: real)
    requires |a| > 0 && |b| > 0 && a[0] == b[0]
    requires WithKey(a, key, k) == WithKey(b, key, k)
    ensures WithKey(a[1..], key, k) == WithKey(b[1..], key, k)
  {
    var p := if key(a[0]) == k then [a[0]] else [];
    assert (p + WithKey(a[1..], key, k))[|p|..] == WithKey(a[1..], key, k);
    assert (p + WithKey(b[1..], key, k))[|p|..] == WithKey(b[1..], key, k);
  }

  /**
   * A sort that is ordered and stable has one possible result: two sorted
   * sequences with the same objects of every key, in the same order, are
   * equal. So SortBy returns exactly what a stable library sort returns.
   */
  lemma {:induction false} StableSortIsUnique(a: seq<Hittable>, b: seq<Hittable>, key: Hittable -> real)
    requires SortedBy(a, key) && SortedBy(b, key)
    requires forall k :: WithKey(a, key, k) == WithKey(b, key, k)
    ensures a == b
    decreases |a| + |b|
  {
    if |a| == 0 && |b| == 0 {
    } else if |a| == 0 {
      WithKeyHead(b, key);
      assert false;
    } else if |b| == 0 {
      WithKeyHead(a, key);
      assert false;
    } else {
      var m := key(a[0]);
      if key(b[0]) > m {
        WithKeyAbsent(b, key, m);
        WithKeyHead(a, key);
        assert false;
      } else if key(b[0]) < m {
        WithKeyAbsent(a, key, key(b[0]));
        WithKeyHead(b, key);
        assert false;
      } else {
        WithKeyHead(a, key);
        WithKeyHead(b, key);
        forall k ensures WithKey(a[1..], key, k) == WithKey(b[1..], key, k) {
          WithKeyTails(a, b, key, k);
        }
        StableSortIsUnique(a[1..], b[1..], key);
        assert a == [a[0]] + a[1..] && b == [b[0]] + b[1..];
      }
    }
  }

  /**
   * Any ordering of `s` that is sorted by the key and keeps the objects of
   * each key in their order (what a stable library sort returns) is SortBy's.
   */
  lemma StableSortIsSortBy(s: seq<Hittable>, r: seq<Hittable>, key: Hittable -> real)
    requires SortedBy(r, key)
    requires forall k :: WithKey(r, key, k) == WithKey(s, key, k)
    ensures r == SortBy(s, key)
  {
    forall k ensures WithKey(r, key, k) == WithKey(SortBy(s, key), key, k) {
      SortByIsStable(s, key, k);
    }
    StableSortIsUnique(r, SortBy(s, key), key);
  }

  /**
   * The objects a tree holds: the leaves of every object given to the build.
   * An object that is not a BVH node is its own leaf (LeafBagOfPlain).
   */
  function LeafBag(objs: seq<Hittable>): multiset<Hittable>
  {
    if |objs| == 0 then multiset{} else multiset(Leaves(objs[0])) + LeafBag(objs[1..])
  }

  lemma {:induction false} LeafBagAppend(a: seq<Hittable>, b: seq<Hittable>)
    ensures LeafBag(a + b) == LeafBag(a) + LeafBag(b)
    decreases |a|
  {
    if |a| > 0 {
      assert (a + b)[1..] == a[1..] + b;
      LeafBagAppend(a[1..], b);
    } else {
      assert a + b == b;
    }
  }

  lemma {:induction false} LeafBagInsert(o: Hittable, s: seq<Hittable>, key: Hittable -> real)
    ensures LeafBag(Insert(o, s, key)) == multiset(Leaves(o)) + LeafBag(s)
    decreases |s|
  {
    if |s| == 0 || key(o) <= key(s[0]) {
      assert Insert(o, s, key) == [o] + s;
      LeafBagCons(o, s);
    } else {
      var rest := Insert(o, s[1..], key);
      LeafBagInsert(o, s[1..], key);
      LeafBagCons(s[0], rest);
      assert s == [s[0]] + s[1..];
      LeafBagCons(s[0], s[1..]);
      BagSwap(multiset(Leaves(s[0])), multiset(Leaves(o)), LeafBag(s[1..]));
    }
  }

  lemma BagSwap(a: multiset<Hittable>, b: multiset<Hittable>, c: multiset<Hittable>)
    ensures a + (b + c) == b + (a + c)
  {
  }

  /** The leaves of an object placed in front. */
  lemma LeafBagCons(x: Hittable, t: seq<Hittable>)
    ensures LeafBag([x] + t) == multiset(Leaves(x)) + LeafBag(t)
  {
    assert ([x] + t)[0] == x && ([x] + t)[1..] == t;
  }

  /** Sorting moves objects around but keeps all of them, leaves included. */
  lemma {:induction false} LeafBagSort(s: seq<Hittable>, key: Hittable -> real)
    ensures LeafBag(SortBy(s, key)) == LeafBag(s)
    decreases |s|
  {
    if |s| > 0 {
      LeafBagSort(s[1..], key);
      LeafBagInsert(s[0], SortBy(s[1..], key), key);
    }
  }

  /** When no input is itself a BVH node, the leaves are exactly the inputs. */
  lemma {:induction false} LeafBagOfPlain(objs: seq<Hittable>)
    requires forall i :: 0 <= i < |objs| ==> !objs[i].BvhNode?
    ensures LeafBag(objs) == multiset(objs)
    decreases |objs|
  {
    if |objs| > 0 {
      LeafBagOfPlain(objs[1..]);
      assert objs == [objs[0]] + objs[1..];
    }
  }

  /**
   * Lines 56-58: after sorting, the left half is the first `len/2` objects and
   * the right half the rest; with two or more objects both halves are
   * non-empty and shorter than the list, and every left key is at most every
   * right key.
   */
  lemma SplitIsOrdered(objs: seq<Hittable>, axis: Axis, time0: real, time1: real)
    requires |objs| >= 2
    ensures var s := SortBy(objs, KeyOn(axis, time0, time1));
      0 < |s| / 2 < |s| &&
      (forall i, j :: 0 <= i < |s| / 2 <= j < |s| ==> MinKey(s[i], axis, time0, time1) <= MinKey(s[j], axis, time0, time1))
  {
  }

  /** Encloses every object that has a box. */
  ghost predicate EnclosesAll(box: Aabbs.Aabb, objs: seq<Hittable>, time0: real, time1: real)
  {
    forall o :: o in objs && HasBox(o, time0, time1) ==> Aabbs.Encloses(box, BoundingBox(o, time0, time1).value)
  }

  /**
   * `BVHNode::init`: panics on an empty list, hands back a single object as
   * it is, and otherwise goes on to SortAndSplit (which panics too when an
   * object has no box). The tree holds exactly the objects given, its box
   * encloses each of them, and a list without boxless objects never panics.
   */
  method Init(srcObjects: seq<Hittable>, time0: real, time1: real, axisAt: AxisDraws, path: seq<bool>)
    returns (res: Built)
    ensures |srcObjects| == 0 ==> res == Panic
    ensures |srcObjects| == 1 ==> res == Built(srcObjects[0])
    ensures |srcObjects| >= 2 ==> (res.Panic? <==> !AllBoxed(srcObjects, time0, time1))
    ensures res.Built? ==> multiset(Leaves(res.node)) == LeafBag(srcObjects)
    ensures res.Built? && AllBoxed(srcObjects, time0, time1) ==>
      HasBox(res.node, time0, time1) && EnclosesAll(BoundingBox(res.node, time0, time1).value, srcObjects, time0, time1)
    decreases |srcObjects|, 1
  {
    var axis := axisAt(path);
    var objectSpan := |srcObjects|;
    if objectSpan == 0 {
      return Panic;
    } else if objectSpan == 1 {
      SingleKeepsObject(srcObjects[0], time0, time1);
      assert srcObjects == [srcObjects[0]];
      return Built(srcObjects[0]);
    } else if !AllBoxed(srcObjects, time0, time1) {
      // the comparator's `unwrap` of a missing box
      return Panic;
    }
    var node := SortAndSplit(srcObjects, time0, time1, axis, axisAt, path);
    return Built(node);
  }

  /** A single object holds itself and its box encloses its box. */
  lemma SingleKeepsObject(o: Hittable, time0: real, time1: real)
    ensures multiset(Leaves(o)) == LeafBag([o])
    ensures HasBox(o, time0, time1) ==> EnclosesAll(BoundingBox(o, time0, time1).value, [o], time0, time1)
  {
    assert [o][1..] == [];
    if HasBox(o, time0, time1) {
      EnclosesReflexive(BoundingBox(o, time0, time1).value);
    }
  }

  /**
   * Lines 50-65 of `init`, for two or more objects that all have a box: sort
   * them on `axis`, move the back half (from `len/2` on) into the right list,
   * build both halves and join them under the box around both.
   */
  method SortAndSplit(srcObjects: seq<Hittable>, time0: real, time1: real, axis: Axis, axisAt: AxisDraws, path: seq<bool>)
    returns (node: Hittable)
    requires |srcObjects| >= 2 && AllBoxed(srcObjects, time0, time1)
    ensures multiset(Leaves(node)) == LeafBag(srcObjects)
    ensures HasBox(node, time0, time1) && EnclosesAll(BoundingBox(node, time0, time1).value, srcObjects, time0, time1)
    ensures var sorted, n := SortBy(srcObjects, KeyOn(axis, time0, time1)), |srcObjects|;
      node.BvhNode? &&
      multiset(Leaves(node.left)) == LeafBag(sorted[..n / 2]) &&
      multiset(Leaves(node.right)) == LeafBag(sorted[n / 2..]) &&
      HasBox(node.left, time0, time1) && HasBox(node.right, time0, time1) &&
      node.box == Aabbs.SurroundingBox(BoundingBox(node.left, time0, time1).value, BoundingBox(node.right, time0, time1).value)
    decreases |srcObjects|, 0
  {
    var objects := SortBy(srcObjects, KeyOn(axis, time0, time1));
    LeafBagSort(srcObjects, KeyOn(axis, time0, time1));
    var leftObjects := objects;
    var rightObjects := leftObjects[|leftObjects| / 2..];
    leftObjects := leftObjects[..|leftObjects| / 2];
    assert objects == leftObjects + rightObjects;
    AllBoxedParts(srcObjects, objects, leftObjects, rightObjects, time0, time1);
    var left := Init(leftObjects, time0, time1, axisAt, path + [false]);
    var right := Init(rightObjects, time0, time1, axisAt, path + [true]);
    var leftBox, rightBox := BoundingBox(left.node, time0, time1).value, BoundingBox(right.node, time0, time1).value;
    node := BvhNode(left.node, right.node, Aabbs.SurroundingBox(leftBox, rightBox));
    JoinKeepsObjects(srcObjects, objects, leftObjects, rightObjects, left.node, right.node, time0, time1);
  }

  /** The node joining the two built halves holds every object and encloses each one's box. */
  lemma JoinKeepsObjects(src: seq<Hittable>, objects: seq<Hittable>, leftObjects: seq<Hittable>, rightObjects: seq<Hittable>,
                         left: Hittable, right: Hittable, time0: real, time1: real)
    requires multiset(objects) == multiset(src) && LeafBag(objects) == LeafBag(src)
    requires objects == leftObjects + rightObjects
    requires multiset(Leaves(left)) == LeafBag(leftObjects) && multiset(Leaves(right)) == LeafBag(rightObjects)
    requires HasBox(left, time0, time1) && HasBox(right, time0, time1)
    requires EnclosesAll(BoundingBox(left, time0, time1).value, leftObjects, time0, time1)
    requires EnclosesAll(BoundingBox(right, time0, time1).value, rightObjects, time0, time1)
    ensures var leftBox, rightBox := BoundingBox(left, time0, time1).value, BoundingBox(right, time0, time1).value;
      var node := BvhNode(left, right, Aabbs.SurroundingBox(leftBox, rightBox));
      multiset(Leaves(node)) == LeafBag(src) &&
      HasBox(node, time0, time1) && EnclosesAll(BoundingBox(node, time0, time1).value, src, time0, time1)
  {
    var leftBox, rightBox := BoundingBox(left, time0, time1).value, BoundingBox(right, time0, time1).value;
    var box := Aabbs.SurroundingBox(leftBox, rightBox);
    LeafBagSplit(src, objects, leftObjects, rightObjects);
    NodeLeaves(left, right, box);
    EnclosesHalves(box, leftBox, rightBox, src, leftObjects, rightObjects, time0, time1);
  }

  /** A node's leaves are its left child's followed by its right child's. */
  lemma NodeLeaves(left: Hittable, right: Hittable, box: Aabbs.Aabb)
    ensures multiset(Leaves(BvhNode(left, right, box))) == multiset(Leaves(left)) + multiset(Leaves(right))
  {
    assert Leaves(BvhNode(left, right, box)) == Leaves(left) + Leaves(right);
  }

  /** Both halves of a permutation of boxed objects are boxed. */
  lemma AllBoxedParts(src: seq<Hittable>, objects: seq<Hittable>, left: seq<Hittable>, right: seq<Hittable>,
                      time0: real, time1: real)
    requires AllBoxed(src, time0, time1) && multiset(objects) == multiset(src) && objects == left + right
    ensures AllBoxed(left, time0, time1) && AllBoxed(right, time0, time1)
  {
    forall o | o in objects ensures HasBox(o, time0, time1) {
      assert o in multiset(src);
      var i :| 0 <= i < |src| && src[i] == o;
    }
    forall i | 0 <= i < |left| ensures HasBox(left[i], time0, time1) {
      assert left[i] == objects[i];
    }
    forall i | 0 <= i < |right| ensures HasBox(right[i], time0, time1) {
      assert right[i] == objects[|left| + i];
    }
  }

  /** Splitting a permutation of the objects into two parts splits their leaves. */
  lemma LeafBagSplit(src: seq<Hittable>, objects: seq<Hittable>, left: seq<Hittable>, right: seq<Hittable>)
    requires LeafBag(objects) == LeafBag(src) && objects == left + right
    ensures LeafBag(left) + LeafBag(right) == LeafBag(src)
  {
    LeafBagAppend(left, right);
  }

  /** A box enclosing boxes that enclose the two halves encloses every object. */
  lemma EnclosesHalves(box: Aabbs.Aabb, leftBox: Aabbs.Aabb, rightBox: Aabbs.Aabb, src: seq<Hittable>,
                       left: seq<Hittable>, right: seq<Hittable>, time0: real, time1: real)
    requires multiset(left + right) == multiset(src)
    requires Aabbs.Encloses(box, leftBox) && Aabbs.Encloses(box, rightBox)
    requires EnclosesAll(leftBox, left, time0, time1) && EnclosesAll(rightBox, right, time0, time1)
    ensures EnclosesAll(box, src, time0, time1)
  {
    forall o | o in src && HasBox(o, time0, time1)
      ensures Aabbs.Encloses(box, BoundingBox(o, time0, time1).value)
    {
      assert o in multiset(left + right);
      assert o in left + right;
      if o in left {
        EnclosesTransitive(box, leftBox, BoundingBox(o, time0, time1).value);
      } else {
        EnclosesTransitive(box, rightBox, BoundingBox(o, time0, time1).value);
      }
    }
  }

  /** `BVHNode::new_boxed`: the build over the objects of a list. */
  method NewBoxed(list: HittableLists.HittableList, time0: real, time1: real, axisAt: AxisDraws) returns (res: Built)
    ensures res.Panic? <==> |list.objects| == 0 || (|list.objects| >= 2 && !AllBoxed(list.objects, time0, time1))
    ensures res.Built? ==> multiset(Leaves(res.node)) == LeafBag(list.objects)
  {
    res := Init(list.objects, time0, time1, axisAt, []);
  }

  /** `BVHNode::bounding_box`: the stored box, whatever the time window. */
  lemma BvhBoundingBoxIsStored(left: Hittable, right: Hittable, box: Aabbs.Aabb, time0: real, time1: real)
    ensures BoundingBox(BvhNode(left, right, box), time0, time1) == Some(box)
  {
  }

  /**
   * The acceleration structure is correct: when every box on the way admits
   * the ray, a tree holding the objects of a list finds a hit exactly when
   * the list's scan does, at the same distance.
   */
  lemma BvhMatchesList(lib: Numeric, h: Hittable, objs: seq<Hittable>, r: Ray, tMin: Lo, tMax: Hi, rbg: real)
    requires multiset(Leaves(h)) == multiset(objs)
    requires SlabsAdmit(h, r, tMin, tMax) && WellNested(lib, objs, r, tMin, tMax, rbg)
    ensures Hit(lib, h, r, tMin, tMax, rbg).None? <==> ListHit(lib, objs, r, tMin, tMax, rbg).None?
    ensures Hit(lib, h, r, tMin, tMax, rbg).Some? ==>
      Hit(lib, h, r, tMin, tMax, rbg).value.t == ListHit(lib, objs, r, tMin, tMax, rbg).value.t
  {
    BvhHitIsClosestLeaf(lib, h, r, tMin, tMax, rbg);
    ClosestDistanceOrderFree(lib, Leaves(h), objs, r, tMin, tMax, rbg);
    ScanIsClosest(lib, objs, |objs|, r, tMin, tMax, rbg);
    assert objs[..|objs|] == objs;
  }
}
