/** The bin-count rules of the histograms, in exact integer arithmetic.

    The source evaluates them in float64 (`np.ceil(2 * n**(1/3))`,
    `np.ceil(1 + np.log2(n))`, `int(1 + np.log2(n))`); here each is the integer
    that formula denotes over the reals:
    - ceil(2 n^(1/3)) is the least k with k^3 >= 8 n,
    - ceil(log2 n) is the least e with 2^e >= n,
    - floor(log2 n) is the greatest e with 2^e <= n,
    - int(sqrt(k)) is the greatest s with s^2 <= k. */
module Binning {
  import opened Common

  function Pow2(e: nat): (p: nat)
    ensures p >= 1
  {
    if e == 0 then 1 else 2 * Pow2(e - 1)
  }

  function Cube(k: nat): nat { k * k * k }

  /** The Rice rule `ceil(2 * n**(1/3))`: the least k with k^3 >= 8 n. */
  function Rice(n: nat): (k: nat)
    ensures Cube(k) >= 8 * n
    ensures forall j: nat :: j < k ==> Cube(j) < 8 * n
  {
    RiceFrom(n, 0)
  }

  function RiceFrom(n: nat, k: nat): (r: nat)
    requires forall j: nat :: j < k ==> Cube(j) < 8 * n
    ensures r >= k && Cube(r) >= 8 * n
    ensures forall j: nat :: j < r ==> Cube(j) < 8 * n
    decreases 8 * n - k
  {
    if Cube(k) >= 8 * n then k
    else
      assert k < 8 * n by { CubeAtLeast(k); }
      assert forall j: nat :: j < k + 1 ==> Cube(j) < 8 * n;
      RiceFrom(n, k + 1)
  }

  lemma CubeAtLeast(k: nat)
    ensures k <= Cube(k)
  {
    if k > 0 {
      assert k * k >= k;
      assert k * k * k >= k * k;
    }
  }

  /** `ceil(log2 n)` for n >= 1: the least e with 2^e >= n. */
  function CeilLog2(n: nat): (e: nat)
    requires n >= 1
    ensures Pow2(e) >= n
    ensures e == 0 || Pow2(e - 1) < n
  {
    if n == 1 then 0 else 1 + CeilLog2((n + 1) / 2)
  }

  /** `floor(log2 n)` for n >= 1: the greatest e with 2^e <= n. */
  function FloorLog2(n: nat): (e: nat)
    requires n >= 1
    ensures Pow2(e) <= n < Pow2(e + 1)
  {
    if n == 1 then 0 else 1 + FloorLog2(n / 2)
  }

  /** `int(k ** 0.5)`: the greatest s with s^2 <= k. */
  function IntSqrt(k: nat): (s: nat)
    ensures s * s <= k < (s + 1) * (s + 1)
  {
    IntSqrtFrom(k, 0)
  }

  function IntSqrtFrom(k: nat, s: nat): (r: nat)
    requires s * s <= k
    ensures r * r <= k < (r + 1) * (r + 1)
    decreases k - s
  {
    if (s + 1) * (s + 1) > k then s
    else
      assert s < k by { assert s + 1 <= (s + 1) * (s + 1); }
      IntSqrtFrom(k, s + 1)
  }

  /** The Sturges rule with the ceiling, `ceil(1 + log2 n)`; zero samples give
      `log2(0) = -inf`, whose conversion to int overflows. */
  function SturgesCeil(n: nat): (r: Result<nat>)
    ensures r.Ok? <==> n >= 1
    ensures r.Ok? ==> r.value >= 1 && Pow2(r.value - 1) >= n && (r.value == 1 || Pow2(r.value - 2) < n)
  {
    if n == 0 then Err(InfiniteBinCount) else Ok(1 + CeilLog2(n))
  }

  /** The Sturges rule with truncation, `int(1 + log2 n)`. */
  function SturgesFloor(n: nat): (r: Result<nat>)
    ensures r.Ok? <==> n >= 1
    ensures r.Ok? ==> r.value >= 1 && Pow2(r.value - 1) <= n < Pow2(r.value)
  {
    if n == 0 then Err(InfiniteBinCount) else Ok(1 + FloorLog2(n))
  }

  lemma CubeMonotone(a: nat, b: nat)
    requires a <= b
    ensures Cube(a) <= Cube(b)
  {
    assert a * a <= b * b by { assert a * a <= a * b <= b * b; }
    assert a * a * a <= b * b * b by { assert a * a * a <= b * b * a <= b * b * b; }
  }

  lemma {:induction false} Pow2Monotone(a: nat, b: nat)
    requires a <= b
    ensures Pow2(a) <= Pow2(b)
  {
    if a < b {
      Pow2Monotone(a, b - 1);
    }
  }

  /** The bins argument of `np.histogram2d`: one count for both axes, or one per axis. */
  datatype GridBins = Same(count: int) | PerAxis(first: int, second: int)

  /** A 1-D `bins_size` argument: an integer, 'rice' or 'sturges'. */
  datatype BinSpec = Count(count: int) | RiceRule | SturgesRule

  /** The bin count the collective 1-D drivers derive from `bins_size` for n
      pooled samples (`ceil(2 n^(1/3))` or `ceil(1 + log2 n)`); Sturges over no
      samples overflows. */
  function RuleCount(spec: BinSpec, n: nat): (r: Result<int>)
    ensures spec.Count? ==> r == Ok(spec.count)
    ensures spec.RiceRule? ==> r == Ok(Rice(n) as int)
    ensures spec.SturgesRule? ==> (r.Ok? <==> n >= 1) && (r.Err? ==> r.error == InfiniteBinCount)
    ensures spec.SturgesRule? && r.Ok? ==> r == Ok(SturgesCeil(n).value as int)
  {
    match spec
    case Count(k) => Ok(k)
    case RiceRule => Ok(Rice(n))
    case SturgesRule =>
      var k :- SturgesCeil(n);
      Ok(k)
  }

  /** Either rule asks for at least one bin once there is a sample. */
  lemma RuleCountPositive(spec: BinSpec, n: nat)
    requires !spec.Count? && n >= 1
    ensures RuleCount(spec, n).Ok? && RuleCount(spec, n).value >= 1
  {
    if spec.RiceRule? {
      assert Cube(0) < 8 * n;
    }
  }

  /** A 2-D `bins_size` argument: an integer or a pair (`Grid`), 'rice' or 'sturges'. */
  datatype GridSpec = Grid(bins: GridBins) | GridRice | GridSturges

  /** The 2-D bins argument for n pooled samples: a rule's count is passed
      through `int(x ** 0.5)`, the same count on both axes. Sturges over no
      samples takes `ceil(1 + log2 0) = -inf` to the power 0.5, which is
      `+inf`, and `int(inf)` overflows. */
  function GridRuleCount(spec: GridSpec, n: nat): (r: Result<GridBins>)
    ensures spec.Grid? ==> r == Ok(spec.bins)
    ensures spec.GridRice? ==> r == Ok(Same(IntSqrt(Rice(n))))
    ensures spec.GridSturges? ==> (r.Ok? <==> n >= 1) && (r.Err? ==> r.error == InfiniteBinCount)
    ensures spec.GridSturges? && r.Ok? ==> r == Ok(Same(IntSqrt(SturgesCeil(n).value)))
  {
    match spec
    case Grid(g) => Ok(g)
    case GridRice => Ok(Same(IntSqrt(Rice(n))))
    case GridSturges =>
      if n == 0 then Err(InfiniteBinCount) else Ok(Same(IntSqrt(SturgesCeil(n).value)))
  }
}
