/** `any_dist_his(data, int_bins, int_dist, int_range)`: the density
    histogram of the distances between every two rows of `data`.

    The distance matrix (sklearn's `pairwise_distances`) is the input `dm`.
    Only the entries strictly above the diagonal are kept, row by row; the
    bin count comes from the Rice rule, from the truncating Sturges rule or
    is given; the histogram is taken over [min(range), max(range)]. The
    result is the density, the bin centres and the smallest and largest
    kept distance. */
module AnyDistHis {
  import opened Common
  import opened Binning
  import opened Histogram
  import opened Entropy

  /** A square matrix of side n. */
  ghost predicate Square(dm: seq<seq<real>>) {
    forall i :: 0 <= i < |dm| ==> |dm[i]| == |dm|
  }

  /** How many entries rows r .. s - 1 hold above the diagonal of an
      n x n matrix. */
  function Skip(n: nat, r: nat, s: nat): nat
    requires r <= s <= n
    decreases s - r
  {
    if r == s then 0 else (n - r - 1) + Skip(n, r + 1, s)
  }

  /** The entries above the diagonal from row r down, row by row. */
  function TriangleFrom(dm: seq<seq<real>>, r: nat): (t: seq<real>)
    requires Square(dm) && r <= |dm|
    ensures |t| == Skip(|dm|, r, |dm|)
    decreases |dm| - r
  {
    if r == |dm| then [] else dm[r][r + 1..] + TriangleFrom(dm, r + 1)
  }

  /** `matrix[np.triu_indices(n, k=1)]`. */
  function UpperTriangle(dm: seq<seq<real>>): (t: seq<real>)
    requires Square(dm)
  {
    TriangleFrom(dm, 0)
  }

  lemma {:induction false} SkipSplit(n: nat, r: nat, q: nat, s: nat)
    requires r <= q <= s <= n
    ensures Skip(n, r, s) == Skip(n, r, q) + Skip(n, q, s)
    decreases q - r
  {
    if r < q {
      SkipSplit(n, r + 1, q, s);
    }
  }

  /** Entry (i, j), i < j, sits at `Skip(n, r, i) + (j - i - 1)` of the
      triangle from row r. */
  lemma {:induction false} TriangleFromAt(dm: seq<seq<real>>, r: nat, i: nat, j: nat)
    requires Square(dm) && r <= i < j < |dm|
    ensures Skip(|dm|, r, i) + (j - i - 1) < |TriangleFrom(dm, r)|
    ensures TriangleFrom(dm, r)[Skip(|dm|, r, i) + (j - i - 1)] == dm[i][j]
    decreases i - r
  {
    var row, rest := dm[r][r + 1..], TriangleFrom(dm, r + 1);
    assert TriangleFrom(dm, r) == row + rest;
    if r < i {
      TriangleFromAt(dm, r + 1, i, j);
      assert Skip(|dm|, r, i) == |row| + Skip(|dm|, r + 1, i);
    } else {
      assert row[j - i - 1] == dm[i][j];
    }
  }

  /** Every kept entry comes from strictly above the diagonal. */
  lemma {:induction false} TriangleFromMembers(dm: seq<seq<real>>, r: nat)
    requires Square(dm) && r <= |dm|
    ensures forall x :: x in TriangleFrom(dm, r) ==> exists i, j :: r <= i < j < |dm| && dm[i][j] == x
    decreases |dm| - r
  {
    if r < |dm| {
      TriangleFromMembers(dm, r + 1);
      var row := dm[r][r + 1..];
      forall x | x in row ensures exists i, j :: r <= i < j < |dm| && dm[i][j] == x {
        var k :| 0 <= k < |row| && row[k] == x;
        assert dm[r][r + 1 + k] == x;
      }
    }
  }

  /** n(n - 1)/2 entries lie above the diagonal. */
  lemma {:induction false} SkipCount(n: nat, r: nat)
    requires r <= n
    ensures 2 * Skip(n, r, n) == (n - r) * (n - r - 1)
    decreases n - r
  {
    if r < n {
      SkipCount(n, r + 1);
    }
  }

  /** n(n - 1)/2 distances are kept. */
  lemma UpperTriangleSize(dm: seq<seq<real>>)
    requires Square(dm)
    ensures 2 * |UpperTriangle(dm)| == |dm| * (|dm| - 1)
  {
    SkipCount(|dm|, 0);
  }

  /** Row by row: entry (i, j), i < j, is distance `Skip(n, 0, i) + j - i - 1`. */
  lemma UpperTriangleAt(dm: seq<seq<real>>, i: nat, j: nat)
    requires Square(dm) && i < j < |dm|
    ensures Skip(|dm|, 0, i) + (j - i - 1) < |UpperTriangle(dm)|
    ensures UpperTriangle(dm)[Skip(|dm|, 0, i) + (j - i - 1)] == dm[i][j]
  {
    TriangleFromAt(dm, 0, i, j);
  }

  /** Every kept distance is an entry strictly above the diagonal. */
  lemma UpperTriangleMembers(dm: seq<seq<real>>)
    requires Square(dm)
    ensures forall x :: x in UpperTriangle(dm) ==> exists i, j :: 0 <= i < j < |dm| && dm[i][j] == x
  {
    TriangleFromMembers(dm, 0);
  }

  /** The bin count of `any_dist_his` for m distances: `ceil(2 m^(1/3))`
      for Rice, `int(1 + log2 m)` (truncated) for Sturges, or the given
      count. Sturges over no distances is `int(-inf)`, an OverflowError. */
  function DistBins(spec: BinSpec, m: nat): (r: Result<int>)
    ensures spec.Count? ==> r == Ok(spec.count)
    ensures spec.RiceRule? ==> r == Ok(Rice(m) as int)
    ensures spec.SturgesRule? ==> (r.Ok? <==> m >= 1) && (r.Err? ==> r.error == InfiniteBinCount)
    ensures spec.SturgesRule? && r.Ok? ==> r.value >= 1 && Pow2(r.value - 1) <= m < Pow2(r.value)
  {
    match spec
    case Count(k) => Ok(k)
    case RiceRule => Ok(Rice(m))
    case SturgesRule =>
      var k :- SturgesFloor(m);
      Ok(k)
  }

  /** The density, the bin centres, and the smallest and largest distance. */
  datatype DistHis = DistHis(density: seq<real>, centres: seq<real>, least: real, most: real)

  /** `any_dist_his`. Errors in the order the source meets them: the bin
      rule, the histogram's own checks, `np.diff(centres)[0]` with a single
      bin, then `np.min` over no distances; a histogram with no distance in
      range is 0/0. The normalisation check only prints, and is left out. */
  function AnyDistHis(dm: seq<seq<real>>, spec: BinSpec, a: real, b: real): (r: Result<DistHis>)
    requires Square(dm)
    ensures r.Ok? <==> && DistBins(spec, |UpperTriangle(dm)|).Ok?
                       && DistBins(spec, |UpperTriangle(dm)|).value >= 2
                       && |dm| >= 2
                       && Histogram1D(UpperTriangle(dm), Min(a, b), Max(a, b), DistBins(spec, |UpperTriangle(dm)|).value).Ok?
    ensures DistBins(spec, |UpperTriangle(dm)|).Ok? && DistBins(spec, |UpperTriangle(dm)|).value == 1 ==> r == Err(IndexOutOfRange)
    ensures DistBins(spec, |UpperTriangle(dm)|).Ok? && DistBins(spec, |UpperTriangle(dm)|).value < 1 ==> r == Err(NonPositiveBins)
    ensures DistBins(spec, |UpperTriangle(dm)|).Ok? && DistBins(spec, |UpperTriangle(dm)|).value >= 2 && |dm| < 2 ==> r == Err(EmptyArray)
    ensures r.Ok? ==>
      var t := UpperTriangle(dm);
      var h := Histogram1D(t, Min(a, b), Max(a, b), DistBins(spec, |t|).value).value;
      && r.value.density == h.density && r.value.centres == Centres(h.edges)
      && r.value.least == SeqMin(t) && r.value.most == SeqMax(t)
  {
    var t := UpperTriangle(dm);
    UpperTriangleSize(dm);
    var bins :- DistBins(spec, |t|);
    var h := Histogram1D(t, Min(a, b), Max(a, b), bins);
    if bins < 1 then Err(NonPositiveBins)
    else if bins < 2 then Err(IndexOutOfRange)
    else if t == [] then Err(EmptyArray)
    else
      var hist :- h;
      Ok(DistHis(hist.density, Centres(hist.edges), SeqMin(t), SeqMax(t)))
  }

  /** The range may be given in either order. */
  lemma RangeEitherOrder(dm: seq<seq<real>>, spec: BinSpec, a: real, b: real)
    requires Square(dm)
    ensures AnyDistHis(dm, spec, a, b) == AnyDistHis(dm, spec, b, a)
  {
    assert Min(a, b) == Min(b, a) && Max(a, b) == Max(b, a);
  }

  /** What comes back is a density over the widened range [min, max] of the
      given pair: one value per bin, never negative, one centre strictly
      inside each bin, and `sum(density) * diff(centres)[0]` is exactly one,
      so in exact arithmetic the normalisation warning never fires. The
      smallest and largest distance bound every kept distance and are
      entries above the diagonal. */
  lemma AnyDistHisIsDensity(dm: seq<seq<real>>, spec: BinSpec, a: real, b: real)
    requires Square(dm) && AnyDistHis(dm, spec, a, b).Ok?
    ensures var o := AnyDistHis(dm, spec, a, b).value;
      var bins := DistBins(spec, |UpperTriangle(dm)|).value;
      && |o.density| == bins && |o.centres| == bins
      && (forall k :: 0 <= k < bins ==> o.density[k] >= 0.0)
      && Times(Sum(o.density), Gap(o.centres)) == 1.0
      && (forall x :: x in UpperTriangle(dm) ==> o.least <= x <= o.most)
      && (exists i, j :: 0 <= i < j < |dm| && dm[i][j] == o.least)
      && (exists i, j :: 0 <= i < j < |dm| && dm[i][j] == o.most)
  {
    var t := UpperTriangle(dm);
    var bins := DistBins(spec, |t|).value;
    HistogramFacts(t, Min(a, b), Max(a, b), bins);
    UpperTriangleMembers(dm);
  }

  lemma HistogramFacts(t: seq<real>, lo: real, hi: real, bins: int)
    requires Histogram1D(t, lo, hi, bins).Ok? && bins >= 2
    ensures var h := Histogram1D(t, lo, hi, bins).value;
      && |h.density| == bins && |Centres(h.edges)| == bins
      && (forall k :: 0 <= k < bins ==> h.density[k] >= 0.0)
      && Times(Sum(h.density), Gap(Centres(h.edges))) == 1.0
  {
    Histogram1DIsDensity(t, lo, hi, bins);
    DensityCheck(Histogram1D(t, lo, hi, bins).value, t, Outer(lo, hi).0, Outer(lo, hi).1, bins);
  }

  lemma DensityCheck(h: Hist, xs: seq<real>, lo: real, hi: real, bins: int)
    requires IsDensityOf(h, xs, lo, hi, bins) && bins >= 2
    ensures |h.density| == bins && |Centres(h.edges)| == bins
    ensures forall k :: 0 <= k < bins ==> h.density[k] >= 0.0
    ensures Times(Sum(h.density), Gap(Centres(h.edges))) == 1.0
  {
    DensityNonNegative(h, xs, lo, hi, bins);
    DensityTimesGap(h, xs, lo, hi, bins);
  }

  lemma DensityTimesGap(h: Hist, xs: seq<real>, lo: real, hi: real, bins: int)
    requires IsDensityOf(h, xs, lo, hi, bins) && bins >= 2
    ensures Times(Sum(h.density), Gap(Centres(h.edges))) == 1.0
  {
    DensitySumTimesWidth(h, xs, lo, hi, bins);
    var s, w := Sum(h.density), h.edges[1] - h.edges[0];
    assert Times(s, w) == s * w == 1.0;
    DensityCentres(h, xs, lo, hi, bins);
    var g := Gap(Centres(h.edges));
    assert g == w;
  }
}
