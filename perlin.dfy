// raytracer/src/perlin.rs: the Perlin noise tables (a table of 256 uniform
// values and three shuffled permutations of 0..255), the hashed lattice
// lookup of `noise` and the smoothed trilinear blend of the eight corners.
module Perlin {
  import opened Vectors

  /** `Perlin::POINT_COUNT`: the size of every table. */
  const PointCount: int := 256

  // ---- Permutation tables ----

  /** `0, 1, ..., n-1`: the table `perlin_generate_perm` starts from. */
  function Iota(n: nat): (s: seq<int>)
    ensures |s| == n && forall k :: 0 <= k < n ==> s[k] == k
  {
    seq(n, k => k)
  }

  /** The swap targets `gen_range(0..i)` draws for the steps `i` of `permute` below `n`: each lies in `[0, i)`. */
  predicate SwapTargets(targets: seq<int>, n: int)
  {
    n <= |targets| && forall i :: 1 <= i < n ==> 0 <= targets[i] < i
  }

  /** `slice::swap`: exchanges the entries at `i` and `j`. */
  function Swap(s: seq<int>, i: int, j: int): (t: seq<int>)
    requires 0 <= i < |s| && 0 <= j < |s|
    ensures |t| == |s| && t[i] == s[j] && t[j] == s[i]
    ensures forall k :: 0 <= k < |s| && k != i && k != j ==> t[k] == s[k]
  {
    s[i := s[j]][j := s[i]]
  }

  lemma SwapPermutes(s: seq<int>, i: int, j: int)
    requires 0 <= i < |s| && 0 <= j < |s|
    ensures multiset(Swap(s, i, j)) == multiset(s)
  {
    var t := s[i := s[j]];
    assert multiset(t) == multiset(s) - multiset{s[i]} + multiset{s[j]};
    assert multiset(t[j := s[i]]) == multiset(t) - multiset{t[j]} + multiset{s[i]};
  }

  /** The table after the steps of `permute` from `i` down to 1, each swapping `i` with its target. */
  function Shuffled(s: seq<int>, i: int, targets: seq<int>): seq<int>
    requires i < |s| && SwapTargets(targets, i + 1)
    decreases i
  {
    if i < 1 then s else Shuffled(Swap(s, i, targets[i]), i - 1, targets)
  }

  /** `permute` only swaps: the table keeps its entries, and the entries past `i` stay in place. */
  lemma {:induction false} ShuffledPermutes(s: seq<int>, i: int, targets: seq<int>)
    requires i < |s| && SwapTargets(targets, i + 1)
    ensures |Shuffled(s, i, targets)| == |s|
    ensures multiset(Shuffled(s, i, targets)) == multiset(s)
    ensures forall k :: i < k < |s| && 0 <= k ==> Shuffled(s, i, targets)[k] == s[k]
    decreases i
  {
    if i >= 1 {
      SwapPermutes(s, i, targets[i]);
      ShuffledPermutes(Swap(s, i, targets[i]), i - 1, targets);
    }
  }

  /**
   * `permute`: for `i` from `n-1` down to 1, swaps entry `i` with the drawn
   * target below it.
   */
  method Permute(p: array<int>, n: int, targets: seq<int>)
    requires n <= p.Length && SwapTargets(targets, n)
    modifies p
    ensures p[..] == Shuffled(old(p[..]), n - 1, targets)
    ensures multiset(p[..]) == multiset(old(p[..]))
  {
    var i := n - 1;
    while i >= 1
      invariant i <= n - 1 && i < p.Length
      invariant Shuffled(p[..], i, targets) == Shuffled(old(p[..]), n - 1, targets)
      decreases i
    {
      var target := targets[i];
      ghost var before := p[..];
      p[i], p[target] := p[target], p[i];
      assert p[..] == Swap(before, i, target);
      i := i - 1;
    }
    ShuffledPermutes(old(p[..]), n - 1, targets);
  }

  /** A permutation table: the numbers `0..255`, each once, in some order. */
  predicate IsPermTable(s: seq<int>)
  {
    multiset(s) == multiset(Iota(PointCount))
  }

  /** Every entry of a permutation table lies in `[0, 255]`, and there are 256 of them. */
  lemma PermTableInRange(s: seq<int>)
    requires IsPermTable(s)
    ensures |s| == PointCount
    ensures forall k :: 0 <= k < |s| ==> 0 <= s[k] < PointCount
  {
    assert |s| == |multiset(s)| == |multiset(Iota(PointCount))| == PointCount;
    forall k | 0 <= k < |s| ensures 0 <= s[k] < PointCount {
      assert s[k] in multiset(s);
      assert s[k] in Iota(PointCount);
    }
  }

  /** `perlin_generate_perm`: `0..255` in order, then permuted. */
  method PerlinGeneratePerm(targets: seq<int>) returns (p: array<int>)
    requires SwapTargets(targets, PointCount)
    ensures fresh(p) && IsPermTable(p[..])
    ensures p[..] == Shuffled(Iota(PointCount), PointCount - 1, targets)
  {
    p := new int[PointCount];
    for i := 0 to PointCount
      invariant forall k :: 0 <= k < i ==> p[k] == k
    {
      p[i] := i;
    }
    assert p[..] == Iota(PointCount);
    Permute(p, PointCount, targets);
  }

  // ---- Lattice hashing ----

  /**
   * Lines 51-53: `(i + d) & 255`. On a two's-complement integer, keeping the
   * low eight bits is the Euclidean remainder by 256, negative `i` included,
   * which is Dafny's `%`.
   */
  function LatticeIndex(x: int): (idx: int)
    ensures 0 <= idx < PointCount
    ensures (x - idx) % PointCount == 0
  {
    x % PointCount
  }

  /** `2^n`. */
  function Pow2(n: nat): (p: nat)
    ensures p >= 1
  {
    if n == 0 then 1 else 2 * Pow2(n - 1)
  }

  /**
   * The bitwise XOR of the low `n` bits of two non-negative numbers, built
   * from the lowest bit up: a bit of the result is set where the bits differ.
   */
  function XorBits(a: nat, b: nat, n: nat): (r: nat)
    ensures r < Pow2(n)
  {
    if n == 0 then 0
    else 2 * XorBits(a / 2, b / 2, n - 1) + (if a % 2 == b % 2 then 0 else 1)
  }

  /** XOR with zero keeps a number of `n` bits. */
  lemma {:induction false} XorZero(a: nat, n: nat)
    requires a < Pow2(n)
    ensures XorBits(a, 0, n) == a
  {
    if n > 0 {
      XorZero(a / 2, n - 1);
    }
  }

  /** A number XORed with itself is zero. */
  lemma {:induction false} XorSelf(a: nat, n: nat)
    ensures XorBits(a, a, n) == 0
  {
    if n > 0 {
      XorSelf(a / 2, n - 1);
    }
  }

  /**
   * Lines 55-57: the XOR of three table entries. The entries lie in
   * `[0, 255]`, so their `i32` XOR is that of their low eight bits, and the
   * index stays in `[0, 255]`.
   */
  function Xor3(a: int, b: int, c: int): (r: int)
    requires 0 <= a < PointCount && 0 <= b < PointCount && 0 <= c < PointCount
    ensures 0 <= r < PointCount
  {
    assert Pow2(8) == PointCount;
    XorBits(XorBits(a, b, 8), c, 8)
  }

  // ---- Trilinear blend ----

  /** Line 67: the smoothstep `u*u*(3-2u)`. */
  function Smooth(u: real): real
  {
    u * u * (3.0 - 2.0 * u)
  }

  /** The smoothstep maps `[0,1]` onto `[0,1]`, fixing both ends. */
  lemma SmoothInUnit(u: real)
    requires 0.0 <= u <= 1.0
    ensures 0.0 <= Smooth(u) <= 1.0
    ensures u == 0.0 ==> Smooth(u) == 0.0
    ensures u == 1.0 ==> Smooth(u) == 1.0
  {
    assert 1.0 - Smooth(u) == (1.0 - u) * (1.0 - u) * (1.0 + 2.0 * u);
    NonNegativeProduct3(u, u, 3.0 - 2.0 * u);
    NonNegativeProduct3(1.0 - u, 1.0 - u, 1.0 + 2.0 * u);
  }

  lemma NonNegativeProduct3(a: real, b: real, c: real)
    requires a >= 0.0 && b >= 0.0 && c >= 0.0
    ensures a * b * c >= 0.0
  {
    assert a * b >= 0.0;
  }

  /**
   * Line 74: the weight of the corner at `bit` along one axis: `s` for the far
   * corner and `1 - s` for the near one.
   */
  function Weight(bit: int, s: real): real
  {
    if bit == 1 then s else 1.0 - s
  }

  /** For the bits 0 and 1, `Weight` is the source's `bit*s + (1-bit)*(1-s)`. */
  lemma WeightIsMix(bit: int, s: real)
    requires bit == 0 || bit == 1
    ensures bit as real * s + (1 - bit) as real * (1.0 - s) == Weight(bit, s)
  {
  }

  /** The two corner weights along an axis sum to 1, and both lie in `[0,1]` when `s` does. */
  lemma WeightsSumToOne(s: real)
    ensures Weight(0, s) + Weight(1, s) == 1.0
    ensures 0.0 <= s <= 1.0 ==> 0.0 <= Weight(0, s) <= 1.0 && 0.0 <= Weight(1, s) <= 1.0
  {
  }

  /** Corner `m` of the cube in the loops' order: `i` outermost, then `j`, then `k`. */
  function CornerBits(m: int): (bits: (int, int, int))
    requires 0 <= m < 8
    ensures 0 <= bits.0 < 2 && 0 <= bits.1 < 2 && 0 <= bits.2 < 2
    ensures m == 4 * bits.0 + 2 * bits.1 + bits.2
  {
    if m == 0 then (0, 0, 0) else if m == 1 then (0, 0, 1) else if m == 2 then (0, 1, 0) else if m == 3 then (0, 1, 1)
    else if m == 4 then (1, 0, 0) else if m == 5 then (1, 0, 1) else if m == 6 then (1, 1, 0) else (1, 1, 1)
  }

  /** The weight of corner `m`: the product of its weights along the three axes. */
  function CornerWeight(m: int, uu: real, vv: real, ww: real): real
    requires 0 <= m < 8
  {
    var (i, j, k) := CornerBits(m);
    Weight(i, uu) * Weight(j, vv) * Weight(k, ww)
  }

  /** The accumulator of `trilinear_interp` after the first `n` corners. */
  function Blend(cs: seq<real>, uu: real, vv: real, ww: real, n: nat): real
    requires n <= |cs| && n <= 8
  {
    if n == 0 then 0.0 else Blend(cs, uu, vv, ww, n - 1) + CornerWeight(n - 1, uu, vv, ww) * cs[n - 1]
  }

  /** A `[[[f64; 2]; 2]; 2]` array, which Rust copies by value. */
  type Cube = seq<seq<seq<real>>>

  predicate IsCube(c: Cube)
  {
    |c| == 2 && |c[0]| == 2 && |c[1]| == 2 &&
    |c[0][0]| == 2 && |c[0][1]| == 2 && |c[1][0]| == 2 && |c[1][1]| == 2
  }

  /** `c[a][b][e] = x` on a 2x2x2 array: that entry changes and no other. */
  function SetCorner(c: Cube, a: int, b: int, e: int, x: real): (r: Cube)
    requires IsCube(c) && 0 <= a < 2 && 0 <= b < 2 && 0 <= e < 2
    ensures IsCube(r) && r[a][b][e] == x
    ensures forall a', b', e' :: 0 <= a' < 2 && 0 <= b' < 2 && 0 <= e' < 2 && (a', b', e') != (a, b, e) ==>
      r[a'][b'][e'] == c[a'][b'][e']
  {
    c[a := c[a][b := c[a][b][e := x]]]
  }

  /** The eight values of a 2x2x2 array in the loops' order. */
  function Corners(c: Cube): (cs: seq<real>)
    requires IsCube(c)
    ensures |cs| == 8
    ensures forall i, j, k :: 0 <= i < 2 && 0 <= j < 2 && 0 <= k < 2 ==> cs[4 * i + 2 * j + k] == c[i][j][k]
  {
    [c[0][0][0], c[0][0][1], c[0][1][0], c[0][1][1], c[1][0][0], c[1][0][1], c[1][1][0], c[1][1][1]]
  }

  lemma CornerIndex(i: int, j: int, k: int)
    requires 0 <= i < 2 && 0 <= j < 2 && 0 <= k < 2
    ensures 0 <= 4 * i + 2 * j + k < 8 && CornerBits(4 * i + 2 * j + k) == (i, j, k)
  {
  }

  /**
   * `trilinear_interp`: the sum over the eight corners of the corner value
   * times the product of its smoothed weights along the three axes.
   */
  method TrilinearInterp(c: Cube, u: real, v: real, w: real) returns (accum: real)
    requires IsCube(c)
    ensures accum == Blend(Corners(c), Smooth(u), Smooth(v), Smooth(w), 8)
  {
    accum := 0.0;
    var uu := u * u * (3.0 - 2.0 * u);
    var vv := v * v * (3.0 - 2.0 * v);
    var ww := w * w * (3.0 - 2.0 * w);
    ghost var cs := Corners(c);
    for i := 0 to 2
      invariant accum == Blend(cs, uu, vv, ww, 4 * i)
    {
      for j := 0 to 2
        invariant accum == Blend(cs, uu, vv, ww, 4 * i + 2 * j)
      {
        for k := 0 to 2
          invariant accum == Blend(cs, uu, vv, ww, 4 * i + 2 * j + k)
        {
          var wgt := (i as real * uu + (1 - i) as real * (1.0 - uu))
                   * (j as real * vv + (1 - j) as real * (1.0 - vv))
                   * (k as real * ww + (1 - k) as real * (1.0 - ww));
          var corner := c[i][j][k];
          MixIsCornerWeight(i, j, k, uu, vv, ww);
          CornerStep(cs, uu, vv, ww, 4 * i + 2 * j + k, wgt, corner, accum);
          accum := accum + wgt * corner;
        }
      }
    }
  }

  /** One pass of the innermost loop adds the weighted corner `(i, j, k)`. */
  lemma CornerStep(cs: seq<real>, uu: real, vv: real, ww: real, m: nat, wgt: real, corner: real, accum: real)
    requires |cs| == 8 && m < 8
    requires wgt == CornerWeight(m, uu, vv, ww)
    requires corner == cs[m]
    requires accum == Blend(cs, uu, vv, ww, m)
    ensures accum + wgt * corner == Blend(cs, uu, vv, ww, m + 1)
  {
  }

  /** The source's weight of corner `(i, j, k)`, multiplied out over the three axes, is `CornerWeight`. */
  lemma MixIsCornerWeight(i: int, j: int, k: int, uu: real, vv: real, ww: real)
    requires 0 <= i < 2 && 0 <= j < 2 && 0 <= k < 2
    ensures 0 <= 4 * i + 2 * j + k < 8
    ensures (i as real * uu + (1 - i) as real * (1.0 - uu))
          * (j as real * vv + (1 - j) as real * (1.0 - vv))
          * (k as real * ww + (1 - k) as real * (1.0 - ww))
        == CornerWeight(4 * i + 2 * j + k, uu, vv, ww)
  {
    CornerIndex(i, j, k);
    WeightIsMix(i, uu);
    WeightIsMix(j, vv);
    WeightIsMix(k, ww);
  }

  /** The eight corner weights add up to `w0 + w1` along each axis, multiplied out. */
  function WeightTotal(uu: real, vv: real, ww: real, n: nat): real
    requires n <= 8
  {
    if n == 0 then 0.0 else WeightTotal(uu, vv, ww, n - 1) + CornerWeight(n - 1, uu, vv, ww)
  }

  /** Line 74: the corner weights form a partition of unity. */
  lemma WeightTotalIsOne(uu: real, vv: real, ww: real)
    ensures WeightTotal(uu, vv, ww, 8) == 1.0
  {
    var a0, a1 := Weight(0, uu), Weight(1, uu);
    var b0, b1 := Weight(0, vv), Weight(1, vv);
    var c0, c1 := Weight(0, ww), Weight(1, ww);
    WeightsSumToOne(uu);
    WeightsSumToOne(vv);
    WeightsSumToOne(ww);
    assert WeightTotal(uu, vv, ww, 1) == a0 * b0 * c0;
    assert WeightTotal(uu, vv, ww, 2) == a0 * b0 * (c0 + c1) by {
      assert WeightTotal(uu, vv, ww, 2) == a0 * b0 * c0 + a0 * b0 * c1;
    }
    assert WeightTotal(uu, vv, ww, 4) == a0 * (b0 + b1) * (c0 + c1) by {
      assert WeightTotal(uu, vv, ww, 4) == WeightTotal(uu, vv, ww, 2) + a0 * b1 * c0 + a0 * b1 * c1;
    }
    assert WeightTotal(uu, vv, ww, 6) == a0 * (b0 + b1) * (c0 + c1) + a1 * b0 * (c0 + c1) by {
      assert WeightTotal(uu, vv, ww, 6) == WeightTotal(uu, vv, ww, 4) + a1 * b0 * c0 + a1 * b0 * c1;
    }
    assert WeightTotal(uu, vv, ww, 8) == (a0 + a1) * (b0 + b1) * (c0 + c1) by {
      assert WeightTotal(uu, vv, ww, 8) == WeightTotal(uu, vv, ww, 6) + a1 * b1 * c0 + a1 * b1 * c1;
    }
  }

  /**
   * With smoothed weights in `[0,1]` and corner values in `[0, hi]`, the
   * first `n` corners blend to at most `hi` times their total weight.
   */
  lemma {:induction false} BlendBounded(cs: seq<real>, uu: real, vv: real, ww: real, n: nat, hi: real)
    requires n <= |cs| && n <= 8 && 0.0 <= uu <= 1.0 && 0.0 <= vv <= 1.0 && 0.0 <= ww <= 1.0
    requires forall m :: 0 <= m < |cs| ==> 0.0 <= cs[m] <= hi
    ensures 0.0 <= Blend(cs, uu, vv, ww, n) <= hi * WeightTotal(uu, vv, ww, n)
  {
    if n > 0 {
      BlendBounded(cs, uu, vv, ww, n - 1, hi);
      var m := n - 1;
      CornerWeightNonNegative(m, uu, vv, ww);
      BlendStep(Blend(cs, uu, vv, ww, m), WeightTotal(uu, vv, ww, m), CornerWeight(m, uu, vv, ww), cs[m], hi);
    }
  }

  /** With weights in `[0,1]` on every axis, each corner weight is non-negative. */
  lemma CornerWeightNonNegative(m: int, uu: real, vv: real, ww: real)
    requires 0 <= m < 8 && 0.0 <= uu <= 1.0 && 0.0 <= vv <= 1.0 && 0.0 <= ww <= 1.0
    ensures CornerWeight(m, uu, vv, ww) >= 0.0
  {
    WeightsSumToOne(uu);
    WeightsSumToOne(vv);
    WeightsSumToOne(ww);
    var (i, j, k) := CornerBits(m);
    NonNegativeProduct3(Weight(i, uu), Weight(j, vv), Weight(k, ww));
  }

  lemma BlendStep(acc: real, total: real, wgt: real, x: real, hi: real)
    requires 0.0 <= acc <= hi * total && wgt >= 0.0 && 0.0 <= x <= hi
    ensures 0.0 <= acc + wgt * x <= hi * (total + wgt)
  {
    assert wgt * x <= wgt * hi;
  }

  /** At a lattice point all the weight sits on the first corner, whose value the blend returns. */
  lemma {:induction false} BlendAtLatticePoint(cs: seq<real>, n: nat)
    requires 1 <= n <= |cs| && n <= 8
    ensures Blend(cs, 0.0, 0.0, 0.0, n) == cs[0]
  {
    if n > 1 {
      BlendAtLatticePoint(cs, n - 1);
      var m := n - 1;
      var (i, j, k) := CornerBits(m);
      assert i == 1 || j == 1 || k == 1;
      assert CornerWeight(m, 0.0, 0.0, 0.0) == 0.0;
    }
  }

  /** The largest of the values. */
  function MaxOf(cs: seq<real>): (hi: real)
    requires |cs| > 0
    ensures hi in cs && forall m :: 0 <= m < |cs| ==> cs[m] <= hi
  {
    if |cs| == 1 then cs[0]
    else
      var rest := MaxOf(cs[1..]);
      assert forall m :: 1 <= m < |cs| ==> cs[m] == cs[1..][m - 1];
      if cs[0] >= rest then cs[0] else rest
  }

  /**
   * The blend of corner values in `[0,1)` with fractions in `[0,1]` lies in
   * `[0,1)`, and at a lattice point it is the value of the first corner.
   */
  lemma BlendInUnit(cs: seq<real>, u: real, v: real, w: real)
    requires |cs| == 8 && forall m :: 0 <= m < 8 ==> 0.0 <= cs[m] < 1.0
    requires 0.0 <= u <= 1.0 && 0.0 <= v <= 1.0 && 0.0 <= w <= 1.0
    ensures 0.0 <= Blend(cs, Smooth(u), Smooth(v), Smooth(w), 8) < 1.0
    ensures u == 0.0 && v == 0.0 && w == 0.0 ==> Blend(cs, Smooth(u), Smooth(v), Smooth(w), 8) == cs[0]
  {
    SmoothInUnit(u);
    SmoothInUnit(v);
    SmoothInUnit(w);
    var hi := MaxOf(cs);
    BlendBounded(cs, Smooth(u), Smooth(v), Smooth(w), 8, hi);
    WeightTotalIsOne(Smooth(u), Smooth(v), Smooth(w));
    if u == 0.0 && v == 0.0 && w == 0.0 {
      BlendAtLatticePoint(cs, 8);
    }
  }

  // ---- The noise generator ----

  /** `Perlin`: a table of 256 values in `[0,1)` and three permutation tables. */
  class Perlin {
    var ranfloat: array<real>
    var permX: array<int>
    var permY: array<int>
    var permZ: array<int>

    /** The tables have 256 entries; the values lie in `[0,1)`; each permutation table is a permutation of `0..255`. */
    ghost predicate Valid()
      reads this, ranfloat, permX, permY, permZ
    {
      ranfloat.Length == PointCount &&
      (forall k :: 0 <= k < ranfloat.Length ==> 0.0 <= ranfloat[k] < 1.0) &&
      IsPermTable(permX[..]) && IsPermTable(permY[..]) && IsPermTable(permZ[..])
    }

    /**
     * `Perlin::new`: 256 draws of `gen_range(0.0..1.0)` and three fresh
     * permutation tables, each shuffled with its own swap targets.
     */
    constructor (draws: seq<real>, targetsX: seq<int>, targetsY: seq<int>, targetsZ: seq<int>)
      requires |draws| == PointCount && forall k :: 0 <= k < |draws| ==> 0.0 <= draws[k] < 1.0
      requires SwapTargets(targetsX, PointCount) && SwapTargets(targetsY, PointCount) && SwapTargets(targetsZ, PointCount)
      ensures Valid() && ranfloat[..] == draws
      ensures permX[..] == Shuffled(Iota(PointCount), PointCount - 1, targetsX)
      ensures permY[..] == Shuffled(Iota(PointCount), PointCount - 1, targetsY)
      ensures permZ[..] == Shuffled(Iota(PointCount), PointCount - 1, targetsZ)
    {
      var values := new real[PointCount];
      for i := 0 to PointCount
        invariant forall k :: 0 <= k < i ==> values[k] == draws[k]
      {
        values[i] := draws[i];
      }
      var px := PerlinGeneratePerm(targetsX);
      var py := PerlinGeneratePerm(targetsY);
      var pz := PerlinGeneratePerm(targetsZ);
      ranfloat, permX, permY, permZ := values, px, py, pz;
    }

    /** Lines 51-58: the table value hashed from the lattice point `(i, j, k)`. */
    function LatticeValue(i: int, j: int, k: int): (value: real)
      requires Valid()
      reads this, ranfloat, permX, permY, permZ
      ensures 0.0 <= value < 1.0
    {
      PermTableInRange(permX[..]);
      PermTableInRange(permY[..]);
      PermTableInRange(permZ[..]);
      ranfloat[Xor3(permX[LatticeIndex(i)], permY[LatticeIndex(j)], permZ[LatticeIndex(k)])]
    }

    /**
     * Lines 46-61: the 2x2x2 array of the values at the lattice corners
     * `(i + di, j + dj, k + dk)`.
     */
    method FillCorners(i: int, j: int, k: int) returns (c: Cube)
      requires Valid()
      ensures IsCube(c)
      ensures forall a, b, e :: 0 <= a < 2 && 0 <= b < 2 && 0 <= e < 2 ==> c[a][b][e] == LatticeValue(i + a, j + b, k + e)
    {
      c := [[[0.0, 0.0], [0.0, 0.0]], [[0.0, 0.0], [0.0, 0.0]]];
      for di := 0 to 2
        invariant IsCube(c)
        invariant forall a, b, e :: 0 <= a < 2 && 0 <= b < 2 && 0 <= e < 2 && 4 * a + 2 * b + e < 4 * di ==>
          c[a][b][e] == LatticeValue(i + a, j + b, k + e)
      {
        for dj := 0 to 2
          invariant IsCube(c)
          invariant forall a, b, e :: 0 <= a < 2 && 0 <= b < 2 && 0 <= e < 2 && 4 * a + 2 * b + e < 4 * di + 2 * dj ==>
            c[a][b][e] == LatticeValue(i + a, j + b, k + e)
        {
          for dk := 0 to 2
            invariant IsCube(c)
            invariant forall a, b, e :: 0 <= a < 2 && 0 <= b < 2 && 0 <= e < 2 && 4 * a + 2 * b + e < 4 * di + 2 * dj + dk ==>
              c[a][b][e] == LatticeValue(i + a, j + b, k + e)
          {
            c := SetCorner(c, di, dj, dk, LatticeValue(i + di, j + dj, k + dk));
          }
        }
      }
    }

    /**
     * `noise`: the values at the eight lattice corners around `p`, blended
     * by the smoothed fractional parts of its coordinates. The result lies in
     * `[0,1)`, and at a lattice point it is that point's hashed value.
     */
    method Noise(p: Vec3) returns (n: real)
      requires Valid()
      ensures 0.0 <= n < 1.0
      ensures p.x == p.x.Floor as real && p.y == p.y.Floor as real && p.z == p.z.Floor as real ==>
        n == LatticeValue(p.x.Floor, p.y.Floor, p.z.Floor)
    {
      var u := p.x - p.x.Floor as real;
      var v := p.y - p.y.Floor as real;
      var w := p.z - p.z.Floor as real;
      var i := p.x.Floor;
      var j := p.y.Floor;
      var k := p.z.Floor;
      var c := FillCorners(i, j, k);
      n := TrilinearInterp(c, u, v, w);
      ghost var cs := Corners(c);
      assert forall m :: 0 <= m < 8 ==> 0.0 <= cs[m] < 1.0 by {
        forall m | 0 <= m < 8 ensures 0.0 <= cs[m] < 1.0 {
          var (a, b, e) := CornerBits(m);
          assert cs[m] == c[a][b][e];
        }
      }
      assert cs[0] == LatticeValue(i, j, k);
      BlendInUnit(cs, u, v, w);
    }
  }
}
