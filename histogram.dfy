/** numpy's equal-width histograms with `density=True`, the density estimator
    behind every information-rate routine.

    `np.histogram(xs, bins, range=(a, b), density=True)`:
    - fewer than one bin is refused, and so is a range with a > b;
    - a range with a == b is widened to (a - 0.5, b + 0.5);
    - the bins + 1 edges are evenly spaced from the lower to the upper end;
    - bin k holds the samples x with edges[k] <= x < edges[k + 1], and the last
      bin also holds x == upper end; samples outside the range are dropped;
    - the density is `n / np.diff(edges) / n.sum()`, which is 0/0 (NaN) when no
      sample is kept.
    `np.histogram2d` does the same on each axis and counts the grid cells.
    Counts are kept as reals, as numpy turns them into floats before dividing. */
module Histogram {
  import opened Common
  import opened Binning

  /** A density and its bin edges, as `np.histogram` returns them. */
  datatype Hist = Hist(density: seq<real>, edges: seq<real>)

  /** A 2-D density `density[a][b]` and the edges of both axes, as `np.histogram2d` returns them. */
  datatype Hist2 = Hist2(density: seq<seq<real>>, xedges: seq<real>, yedges: seq<real>)


  /** numpy's `_get_outer_edges` for an explicit range. */
  function OuterEdges(a: real, b: real): (r: Result<(real, real)>)
    ensures r.Ok? <==> a <= b
    ensures r.Ok? ==> r.value.0 < r.value.1 && r.value.0 <= a && b <= r.value.1
    ensures a < b ==> r == Ok((a, b))
  {
    if a > b then Err(InvertedRange)
    else if a == b then Ok((a - 0.5, b + 0.5))
    else Ok((a, b))
  }

  /** The range `_get_outer_edges` settles on, for a range that is not inverted. */
  function Outer(a: real, b: real): (r: (real, real))
    requires a <= b
    ensures r.0 < r.1 && r.0 <= a && b <= r.1
  {
    OuterEdges(a, b).value
  }

  /** The bin width (hi - lo) / m for m bins, m given as a real. */
  function Width(lo: real, hi: real, m: real): real
    requires m >= 1.0
  {
    (hi - lo) / m
  }

  /** A non-empty range cut into m >= 1 bins has positive bins, m of which span it. */
  lemma WidthFacts(lo: real, hi: real, m: real)
    requires lo < hi && m >= 1.0
    ensures Width(lo, hi, m) > 0.0
    ensures lo + Times(m, Width(lo, hi, m)) == hi
  {
  }

  /** Every element after the first is larger than every element before it. */
  ghost predicate Increasing(e: seq<real>) {
    forall j, k :: 0 <= j < k < |e| ==> e[j] < e[k]
  }

  /** `n` evenly spaced points from `start` in steps of `step`. */
  function Ladder(start: real, step: real, n: nat): (e: seq<real>)
    requires step > 0.0
    ensures |e| == n && (n > 0 ==> e[0] == start)
    ensures Increasing(e)
    decreases n
  {
    if n == 0 then []
    else
      var rest := Ladder(start + step, step, n - 1);
      var e := [start] + rest;
      assert forall k :: 1 <= k < n ==> e[k] == rest[k - 1];
      assert forall k :: 1 <= k < n ==> e[0] < e[k] by {
        forall k | 1 <= k < n ensures e[0] < e[k] {
          if k > 1 { assert rest[0] < rest[k - 1]; }
        }
      }
      e
  }

  /** Consecutive points of a ladder are one step apart. */
  lemma {:induction false} LadderUniform(start: real, step: real, n: nat)
    requires step > 0.0
    ensures forall j, k :: 0 <= j && j + 1 == k < n ==> Ladder(start, step, n)[k] - Ladder(start, step, n)[j] == step
    decreases n
  {
    if n > 1 {
      LadderUniform(start + step, step, n - 1);
      var e := Ladder(start, step, n);
      var rest := Ladder(start + step, step, n - 1);
      assert e == [start] + rest;
      forall j, k | 0 <= j && j + 1 == k < n ensures e[k] - e[j] == step {
        if j > 0 {
          assert e[k] == rest[k - 1] && e[j] == rest[j - 1];
        }
      }
    }
  }

  lemma Shift(start: real, step: real, kr: real)
    ensures (start + step) + Times(kr - 1.0, step) == start + Times(kr, step)
  {
    TimesDistrib(kr - 1.0, 1.0, step);
  }

  /** Point k of a ladder is start + k step (`kr` is k as a real). */
  lemma {:induction false} LadderAt(start: real, step: real, n: nat, k: nat, kr: real)
    requires step > 0.0 && k < n && kr == Real(k)
    ensures Ladder(start, step, n)[k] == start + Times(kr, step)
    decreases n
  {
    if k > 0 {
      LadderAt(start + step, step, n - 1, k - 1, kr - 1.0);
      assert Ladder(start, step, n)[k] == Ladder(start + step, step, n - 1)[k - 1];
      Shift(start, step, kr);
    }
  }

  /** The bin edges `np.linspace(lo, hi, bins + 1)`: strictly increasing from lo up to hi. */
  function Edges(lo: real, hi: real, bins: nat): (e: seq<real>)
    requires lo < hi && bins >= 1
    ensures |e| == bins + 1 && e[0] == lo && e[bins] == hi
    ensures Increasing(e)
  {
    WidthFacts(lo, hi, Real(bins));
    LadderAt(lo, Width(lo, hi, Real(bins)), bins + 1, bins, Real(bins));
    Ladder(lo, Width(lo, hi, Real(bins)), bins + 1)
  }

  /** The edges are evenly spaced: every bin is (hi - lo) / bins wide. */
  lemma EdgesEvenlySpaced(lo: real, hi: real, bins: nat)
    requires lo < hi && bins >= 1
    ensures EvenlySpaced(Edges(lo, hi, bins))
    ensures Edges(lo, hi, bins)[1] - Edges(lo, hi, bins)[0] == Width(lo, hi, Real(bins))
  {
    WidthFacts(lo, hi, Real(bins));
    LadderUniform(lo, Width(lo, hi, Real(bins)), bins + 1);
  }

  /** The bin centres `0.5 * (edges[1:] + edges[:-1])`. */
  function Centres(edges: seq<real>): (c: seq<real>)
    requires |edges| >= 1
    ensures |c| == |edges| - 1
  {
    seq(|edges| - 1, k requires 0 <= k < |edges| - 1 => 0.5 * (edges[k + 1] + edges[k]))
  }

  /** The centres of increasing, evenly spaced edges are one per bin, each
      strictly inside its bin, and consecutive centres are exactly one bin
      width apart: the `dx` of the rate functional is the bin width. */
  lemma CentresOfEdges(e: seq<real>)
    requires Increasing(e) && EvenlySpaced(e)
    ensures |Centres(e)| == |e| - 1
    ensures forall k :: 0 <= k < |e| - 1 ==> e[k] < Centres(e)[k] < e[k + 1]
    ensures forall j, k :: 0 <= j && j + 1 == k < |e| - 1 ==> Centres(e)[k] - Centres(e)[j] == e[1] - e[0]
  {
    var c := Centres(e);
    forall j, k | 0 <= j && j + 1 == k < |e| - 1 ensures c[k] - c[j] == e[1] - e[0] {
      assert e[k + 1] - e[k] == e[1] - e[0];
      assert e[k] - e[j] == e[1] - e[0];
    }
  }

  /** The centres of the linspace edges: one per bin, consecutive ones
      exactly (hi - lo) / bins apart. */
  lemma {:induction false} CentresOfLinspace(lo: real, hi: real, bins: nat)
    requires lo < hi && bins >= 1
    ensures var c := Centres(Edges(lo, hi, bins));
      && |c| == bins
      && forall k :: 0 < k < bins ==> c[k] - c[k - 1] == Width(lo, hi, Real(bins))
  {
    var e := Edges(lo, hi, bins);
    var c, w := Centres(e), Width(lo, hi, Real(bins));
    EdgesEvenlySpaced(lo, hi, bins);
    forall k | 0 < k < bins ensures c[k] - c[k - 1] == w {
      var j := k - 1;
      assert e[k + 1] - e[k] == e[1] - e[0];
      assert e[k] - e[j] == e[1] - e[0];
    }
  }

  /** Whether x falls into bin k of `e`: half-open, except that the last bin is closed. */
  predicate InBin(x: real, e: seq<real>, k: nat) {
    k + 1 < |e| && e[k] <= x && (x < e[k + 1] || (k + 2 == |e| && x == e[k + 1]))
  }

  /** Over increasing edges a sample is in at most one bin. */
  lemma BinUnique(x: real, e: seq<real>, j: nat, k: nat)
    requires Increasing(e) && InBin(x, e, j) && InBin(x, e, k)
    ensures j == k
  {
  }

  /** A sample in some bin lies between the first and the last edge. */
  lemma BinInRange(x: real, e: seq<real>, k: nat)
    requires Increasing(e) && InBin(x, e, k)
    ensures e[0] <= x <= e[|e| - 1]
  {
  }

  /** The bin a sample between the first and the last edge lands in (numpy
      computes it from `(x - lo) / width` and corrects it against the edges;
      either way it is the bin the edges assign). */
  function FindBin(x: real, e: seq<real>): (k: nat)
    requires |e| >= 2 && Increasing(e) && e[0] <= x <= e[|e| - 1]
    ensures InBin(x, e, k)
  {
    if x < e[1] || |e| == 2 then 0
    else
      var k := FindBin(x, e[1..]);
      assert InBin(x, e[1..], k);
      k + 1
  }

  /** The number of samples inside [lo, hi]. */
  function InRangeCount(xs: seq<real>, lo: real, hi: real): (n: real)
    ensures n >= 0.0
  {
    if xs == [] then 0.0 else (if lo <= xs[0] <= hi then 1.0 else 0.0) + InRangeCount(xs[1..], lo, hi)
  }

  /** The number of samples in bin k of `e`, counted straight from the edges. */
  function CountInBin(xs: seq<real>, e: seq<real>, k: nat): (n: real)
    ensures n >= 0.0
  {
    if xs == [] then 0.0 else (if InBin(xs[0], e, k) then 1.0 else 0.0) + CountInBin(xs[1..], e, k)
  }

  /** The count of every bin of `e`. */
  function Counts(xs: seq<real>, e: seq<real>): (c: seq<real>)
    requires |e| >= 1
    ensures |c| == |e| - 1
  {
    seq(|e| - 1, k requires 0 <= k < |e| - 1 => CountInBin(xs, e, k))
  }

  lemma CountsAt(xs: seq<real>, e: seq<real>, k: nat)
    requires |e| >= 1 && k < |e| - 1
    ensures Counts(xs, e)[k] == CountInBin(xs, e, k)
  {
  }

  /** Tallying the samples one at a time gives the count of every bin, and the
      counts add up to the number of samples between the outer edges: every
      kept sample lands in exactly one bin and no other sample in any. */
  function BinCounts(xs: seq<real>, e: seq<real>): (c: seq<real>)
    requires |e| >= 2 && Increasing(e)
    ensures c == Counts(xs, e)
    ensures Sum(c) == InRangeCount(xs, e[0], e[|e| - 1])
  {
    if xs == [] then
      var z := Zeros(|e| - 1);
      assert z == Counts(xs, e);
      z
    else
      var rest := BinCounts(xs[1..], e);
      if e[0] <= xs[0] <= e[|e| - 1] then
        var k := FindBin(xs[0], e);
        forall j: nat | InBin(xs[0], e, j) ensures j == k {
          BinUnique(xs[0], e, j, k);
        }
        SumIncrement(rest, k);
        var c := rest[k := rest[k] + 1.0];
        assert forall j :: 0 <= j < |e| - 1 ==> c[j] == CountInBin(xs, e, j);
        c
      else
        forall j: nat ensures !InBin(xs[0], e, j) {
          if InBin(xs[0], e, j) { BinInRange(xs[0], e, j); }
        }
        assert forall j :: 0 <= j < |e| - 1 ==> rest[j] == CountInBin(xs, e, j);
        rest
  }

  /** The integral of a step function: the sum of value x bin width over the bins of `e`. */
  function Integral(d: seq<real>, e: seq<real>): real
    requires |e| == |d| + 1
  {
    if d == [] then 0.0 else d[0] * (e[1] - e[0]) + Integral(d[1..], e[1..])
  }

  /** The width of bin k of `e` times `s`: what count k is divided by. */
  function BinScale(e: seq<real>, k: nat, s: real): (r: real)
    requires Increasing(e) && k < |e| - 1 && s > 0.0
    ensures r > 0.0
  {
    assert e[k] < e[k + 1];
    MulPositive(e[k + 1] - e[k], s);
    (e[k + 1] - e[k]) * s
  }

  /** numpy's `n / np.diff(edges) / s`: each count over its bin width and over `s`. */
  function Normalise(c: seq<real>, e: seq<real>, s: real): (d: seq<real>)
    requires |e| == |c| + 1 && Increasing(e) && s > 0.0
    ensures |d| == |c|
  {
    if c == [] then [] else [c[0] / BinScale(e, 0, s)] + Normalise(c[1..], e[1..], s)
  }

  /** Bin k of the normalised counts is count k over (width k x s). */
  lemma {:induction false} NormaliseAt(c: seq<real>, e: seq<real>, s: real, k: nat)
    requires |e| == |c| + 1 && Increasing(e) && s > 0.0 && k < |c|
    ensures Normalise(c, e, s)[k] == c[k] / BinScale(e, k, s)
  {
    if k > 0 {
      NormaliseAt(c[1..], e[1..], s, k - 1);
      assert c[1..][k - 1] == c[k];
      assert BinScale(e[1..], k - 1, s) == BinScale(e, k, s) by {
        assert e[1..][k] == e[k + 1] && e[1..][k - 1] == e[k];
      }
    }
  }

  /** One bin of a normalised histogram: its share of the integral joins the rest's. */
  lemma NormaliseStep(c0: real, w: real, s: real, d0: real, restIntegral: real, restSum: real)
    requires w > 0.0 && s > 0.0
    requires d0 == c0 / (w * s) && restIntegral == restSum / s
    ensures d0 * w + restIntegral == (c0 + restSum) / s
  {
    CancelWidth(c0, w, s);
    DivAdd(c0, restSum, s);
  }

  /** Normalising by `s` divides the integral of the counts by `s`: with `s`
      the total count, the density integrates to one. */
  lemma {:induction false} NormaliseIntegral(c: seq<real>, e: seq<real>, s: real)
    requires |e| == |c| + 1 && Increasing(e) && s > 0.0
    ensures Integral(Normalise(c, e, s), e) == Sum(c) / s
  {
    if c != [] {
      var d := Normalise(c, e, s);
      assert d[1..] == Normalise(c[1..], e[1..], s);
      NormaliseIntegral(c[1..], e[1..], s);
      assert e[0] < e[1] && BinScale(e, 0, s) == (e[1] - e[0]) * s;
      NormaliseStep(c[0], e[1] - e[0], s, d[0], Integral(d[1..], e[1..]), Sum(c[1..]));
    }
  }

  /** Every bin of `e` is as wide as the first. */
  ghost predicate EvenlySpaced(e: seq<real>) {
    |e| >= 2 && forall j, k :: 0 <= j && j + 1 == k < |e| ==> e[k] - e[j] == e[1] - e[0]
  }

  /** Over bins of one width `w` the integral is the plain sum times `w`. */
  lemma {:induction false} IntegralUniform(d: seq<real>, e: seq<real>, w: real)
    requires |e| == |d| + 1
    requires forall j, k :: 0 <= j && j + 1 == k < |e| ==> e[k] - e[j] == w
    ensures Integral(d, e) == Sum(d) * w
  {
    if d != [] {
      forall j, k | 0 <= j && j + 1 == k < |e| - 1 ensures e[1..][k] - e[1..][j] == w {
        assert e[1..][k] == e[k + 1] && e[1..][j] == e[j + 1];
      }
      IntegralUniform(d[1..], e[1..], w);
      assert e[1] - e[0] == w;
      MulDistrib(d[0], Sum(d[1..]), w);
    }
  }

  /** Over evenly spaced edges the integral is the plain sum times the bin width. */
  lemma IntegralEvenlySpaced(d: seq<real>, e: seq<real>)
    requires |e| == |d| + 1 && EvenlySpaced(e)
    ensures Integral(d, e) == Sum(d) * (e[1] - e[0])
  {
    IntegralUniform(d, e, e[1] - e[0]);
  }

  /** `h` is a density histogram of `xs` with `bins` bins from lo to hi:
      increasing, evenly spaced edges from lo to hi, some sample kept, and
      density = bin counts / (bin width x samples kept). */
  ghost predicate IsDensityOf(h: Hist, xs: seq<real>, lo: real, hi: real, bins: int)
  {
    && lo < hi && bins >= 1
    && |h.edges| == bins + 1 && h.edges[0] == lo && h.edges[bins] == hi && |h.density| == bins
    && Increasing(h.edges) && EvenlySpaced(h.edges)
    && exists n :: n == InRangeCount(xs, lo, hi) && n > 0.0 && h.density == Normalise(Counts(xs, h.edges), h.edges, n)
  }

  /** The density histogram over a settled range [lo, hi] on the linspace
      edges; no sample kept gives 0/0. */
  function HistogramOver(xs: seq<real>, lo: real, hi: real, bins: nat): (r: Result<Hist>)
    requires lo < hi && bins >= 1
    ensures r.Ok? <==> InRangeCount(xs, lo, hi) > 0.0
    ensures r.Err? ==> r.error == NotFinite
    ensures r.Ok? ==> r.value.edges == Edges(lo, hi, bins) && |r.value.density| == bins
  {
    var e := Edges(lo, hi, bins);
    var c := BinCounts(xs, e);
    if Sum(c) == 0.0 then Err(NotFinite)
    else Ok(Hist(Normalise(c, e, Sum(c)), e))
  }

  /** What `HistogramOver` returns is a density histogram of the samples. */
  lemma HistogramOverIsDensity(xs: seq<real>, lo: real, hi: real, bins: nat)
    requires lo < hi && bins >= 1 && HistogramOver(xs, lo, hi, bins).Ok?
    ensures IsDensityOf(HistogramOver(xs, lo, hi, bins).value, xs, lo, hi, bins)
  {
    var h := HistogramOver(xs, lo, hi, bins).value;
    EdgesEvenlySpaced(lo, hi, bins);
    var c := BinCounts(xs, h.edges);
    assert h.density == Normalise(Counts(xs, h.edges), h.edges, Sum(c));
  }

  /** `np.histogram(xs, bins=bins, range=(a, b), density=True)`. */
  function Histogram1D(xs: seq<real>, a: real, b: real, bins: int): (r: Result<Hist>)
    ensures bins < 1 ==> r == Err(NonPositiveBins)
    ensures bins >= 1 && a > b ==> r == Err(InvertedRange)
    ensures r.Ok? <==> bins >= 1 && a <= b && InRangeCount(xs, Outer(a, b).0, Outer(a, b).1) > 0.0
    ensures r.Ok? ==> r.value.edges == Edges(Outer(a, b).0, Outer(a, b).1, bins) && |r.value.density| == bins
  {
    if bins < 1 then Err(NonPositiveBins)
    else if a > b then Err(InvertedRange)
    else HistogramOver(xs, Outer(a, b).0, Outer(a, b).1, bins)
  }

  /** What `Histogram1D` returns is a density histogram of the samples over the widened range. */
  lemma Histogram1DIsDensity(xs: seq<real>, a: real, b: real, bins: int)
    requires Histogram1D(xs, a, b, bins).Ok?
    ensures IsDensityOf(Histogram1D(xs, a, b, bins).value, xs, Outer(a, b).0, Outer(a, b).1, bins)
  {
    HistogramOverIsDensity(xs, Outer(a, b).0, Outer(a, b).1, bins);
  }

  /** Entry k of normalised counts is count k over (width k x n), never negative. */
  lemma NormalisedCountAt(d: seq<real>, e: seq<real>, xs: seq<real>, n: real, k: nat)
    requires |e| >= 2 && Increasing(e) && n > 0.0 && k < |e| - 1
    requires d == Normalise(Counts(xs, e), e, n)
    ensures d[k] == CountInBin(xs, e, k) / BinScale(e, k, n)
  {
    CountsAt(xs, e, k);
    NormaliseAt(Counts(xs, e), e, n, k);
  }

  /** Normalising non-negative counts gives non-negative values. */
  lemma {:induction false} NormaliseNonNegative(c: seq<real>, e: seq<real>, s: real)
    requires |e| == |c| + 1 && Increasing(e) && s > 0.0
    requires forall k :: 0 <= k < |c| ==> c[k] >= 0.0
    ensures forall k :: 0 <= k < |c| ==> Normalise(c, e, s)[k] >= 0.0
  {
    if c != [] {
      var d := Normalise(c, e, s);
      assert d[1..] == Normalise(c[1..], e[1..], s);
      NormaliseNonNegative(c[1..], e[1..], s);
      DivNonNegative(c[0], BinScale(e, 0, s));
      forall k | 1 <= k < |c| ensures d[k] >= 0.0 {
        assert d[k] == d[1..][k - 1];
      }
    }
  }

  /** Bin k of a density histogram holds (samples in bin k) / (bin width x
      samples kept). */
  lemma DensityAt(h: Hist, xs: seq<real>, lo: real, hi: real, bins: int, k: nat, n: real)
    requires IsDensityOf(h, xs, lo, hi, bins) && k < bins && n == InRangeCount(xs, lo, hi)
    ensures h.density[k] == CountInBin(xs, h.edges, k) / BinScale(h.edges, k, n)
  {
    NormalisedCountAt(h.density, h.edges, xs, n, k);
  }

  /** A density histogram is never negative. */
  lemma DensityNonNegative(h: Hist, xs: seq<real>, lo: real, hi: real, bins: int)
    requires IsDensityOf(h, xs, lo, hi, bins)
    ensures forall k :: 0 <= k < |h.density| ==> h.density[k] >= 0.0
  {
    var c := BinCounts(xs, h.edges);
    NormaliseNonNegative(c, h.edges, Sum(c));
  }

  /** The density integrates to one over the bins. */
  lemma DensityIntegral(h: Hist, xs: seq<real>, lo: real, hi: real, bins: int)
    requires IsDensityOf(h, xs, lo, hi, bins)
    ensures Integral(h.density, h.edges) == 1.0
  {
    var c := BinCounts(xs, h.edges);
    NormaliseIntegral(c, h.edges, Sum(c));
    DivSelf(Sum(c));
  }

  /** With evenly spaced edges the density values sum to one over the bin
      width: sum(density) x width = 1. */
  lemma DensitySumTimesWidth(h: Hist, xs: seq<real>, lo: real, hi: real, bins: int)
    requires IsDensityOf(h, xs, lo, hi, bins)
    ensures Sum(h.density) * (h.edges[1] - h.edges[0]) == 1.0
  {
    DensityIntegral(h, xs, lo, hi, bins);
    IntegralEvenlySpaced(h.density, h.edges);
  }

  /** `np.histogram(xs, bins=bins, density=True)` with no range: the range is
      [min xs, max xs], or [0, 1] for no samples, widened when the ends meet. */
  function HistogramAuto(xs: seq<real>, bins: int): (r: Result<Hist>)
    ensures bins < 1 ==> r == Err(NonPositiveBins)
    ensures bins >= 1 ==> (r.Ok? <==> |xs| > 0)
    ensures r.Ok? ==> r.value.edges == Edges(Outer(SeqMin(xs), SeqMax(xs)).0, Outer(SeqMin(xs), SeqMax(xs)).1, bins)
    ensures r.Ok? ==> |r.value.density| == bins
  {
    if xs == [] then Histogram1D(xs, 0.0, 1.0, bins)
    else
      var (lo, hi) := Outer(SeqMin(xs), SeqMax(xs));
      AllInRange(xs, lo, hi);
      Histogram1D(xs, SeqMin(xs), SeqMax(xs), bins)
  }

  /** What `HistogramAuto` returns is a density histogram of the samples over their own range. */
  lemma HistogramAutoIsDensity(xs: seq<real>, bins: int)
    requires HistogramAuto(xs, bins).Ok?
    ensures IsDensityOf(HistogramAuto(xs, bins).value, xs, Outer(SeqMin(xs), SeqMax(xs)).0, Outer(SeqMin(xs), SeqMax(xs)).1, bins)
  {
    Histogram1DIsDensity(xs, SeqMin(xs), SeqMax(xs), bins);
  }

  /** A range that holds every sample keeps every sample. */
  lemma {:induction false} AllInRange(xs: seq<real>, lo: real, hi: real)
    requires forall x :: x in xs ==> lo <= x <= hi
    ensures InRangeCount(xs, lo, hi) == Real(|xs|)
  {
    if xs != [] {
      assert xs[0] in xs;
      assert forall x :: x in xs[1..] ==> x in xs;
      AllInRange(xs[1..], lo, hi);
    }
  }

  // ---------------------------------------------------------------------------
  // Two dimensions

  /** The number of sample pairs inside [lo1, hi1] x [lo2, hi2]. */
  function InRangeCount2(xs: seq<real>, ys: seq<real>, lo1: real, hi1: real, lo2: real, hi2: real): (n: real)
    requires |xs| == |ys|
    ensures n >= 0.0
  {
    if xs == [] then 0.0
    else
      var here := if lo1 <= xs[0] <= hi1 && lo2 <= ys[0] <= hi2 then 1.0 else 0.0;
      here + InRangeCount2(xs[1..], ys[1..], lo1, hi1, lo2, hi2)
  }

  /** A box that holds every pair keeps every pair. */
  lemma {:induction false} AllInRange2(xs: seq<real>, ys: seq<real>, lo1: real, hi1: real, lo2: real, hi2: real)
    requires |xs| == |ys|
    requires forall x :: x in xs ==> lo1 <= x <= hi1
    requires forall y :: y in ys ==> lo2 <= y <= hi2
    ensures InRangeCount2(xs, ys, lo1, hi1, lo2, hi2) == Real(|xs|)
  {
    if xs != [] {
      assert xs[0] in xs && ys[0] in ys;
      assert forall x :: x in xs[1..] ==> x in xs;
      assert forall y :: y in ys[1..] ==> y in ys;
      AllInRange2(xs[1..], ys[1..], lo1, hi1, lo2, hi2);
    }
  }

  /** The number of sample pairs in grid cell (a, b), counted straight from the edges. */
  function CountInCell(xs: seq<real>, ys: seq<real>, ex: seq<real>, ey: seq<real>, a: nat, b: nat): (n: real)
    requires |xs| == |ys|
    ensures n >= 0.0
  {
    if xs == [] then 0.0
    else
      var here := if InBin(xs[0], ex, a) && InBin(ys[0], ey, b) then 1.0 else 0.0;
      here + CountInCell(xs[1..], ys[1..], ex, ey, a, b)
  }

  /** The count of every cell of the grid `ex` x `ey`. */
  function Counts2(xs: seq<real>, ys: seq<real>, ex: seq<real>, ey: seq<real>): (c: seq<seq<real>>)
    requires |xs| == |ys| && |ex| >= 1 && |ey| >= 1
    ensures |c| == |ex| - 1 && forall a :: 0 <= a < |c| ==> |c[a]| == |ey| - 1
  {
    seq(|ex| - 1, a requires 0 <= a < |ex| - 1 =>
      seq(|ey| - 1, b requires 0 <= b < |ey| - 1 => CountInCell(xs, ys, ex, ey, a, b)))
  }

  lemma Counts2At(xs: seq<real>, ys: seq<real>, ex: seq<real>, ey: seq<real>, a: nat, b: nat)
    requires |xs| == |ys| && a < |ex| - 1 && b < |ey| - 1
    ensures Counts2(xs, ys, ex, ey)[a][b] == CountInCell(xs, ys, ex, ey, a, b)
  {
  }

  /** The sum of every entry of a grid. */
  function Sum2(d: seq<seq<real>>): real {
    if d == [] then 0.0 else Sum(d[0]) + Sum2(d[1..])
  }

  lemma {:induction false} Sum2Increment(c: seq<seq<real>>, a: nat, b: nat)
    requires a < |c| && b < |c[a]|
    ensures Sum2(c[a := c[a][b := c[a][b] + 1.0]]) == Sum2(c) + 1.0
  {
    var c' := c[a := c[a][b := c[a][b] + 1.0]];
    if a == 0 {
      assert c'[1..] == c[1..];
      SumIncrement(c[0], b);
    } else {
      assert c'[1..] == c[1..][a - 1 := c[1..][a - 1][b := c[1..][a - 1][b] + 1.0]];
      Sum2Increment(c[1..], a - 1, b);
    }
  }

  /** A `rows` x `cols` grid of zeros. */
  function ZeroGrid(rows: nat, cols: nat): (g: seq<seq<real>>)
    ensures |g| == rows && Sum2(g) == 0.0
    ensures forall a :: 0 <= a < rows ==> g[a] == Zeros(cols)
  {
    if rows == 0 then [] else [Zeros(cols)] + ZeroGrid(rows - 1, cols)
  }

  /** A pair that lands in cell (a, b) adds one to that cell's count and to
      no other. */
  lemma Counts2Tally(xs: seq<real>, ys: seq<real>, ex: seq<real>, ey: seq<real>, a: nat, b: nat)
    requires |xs| == |ys| > 0 && |ex| >= 2 && |ey| >= 2 && Increasing(ex) && Increasing(ey)
    requires InBin(xs[0], ex, a) && InBin(ys[0], ey, b)
    ensures a < |ex| - 1 && b < |ey| - 1
    ensures var r := Counts2(xs[1..], ys[1..], ex, ey);
            Counts2(xs, ys, ex, ey) == r[a := r[a][b := r[a][b] + 1.0]]
  {
    var r := Counts2(xs[1..], ys[1..], ex, ey);
    var c := Counts2(xs, ys, ex, ey);
    var t := r[a := r[a][b := r[a][b] + 1.0]];
    forall i | 0 <= i < |ex| - 1 ensures c[i] == t[i] {
      forall j | 0 <= j < |ey| - 1 ensures c[i][j] == t[i][j] {
        if InBin(xs[0], ex, i) && InBin(ys[0], ey, j) {
          BinUnique(xs[0], ex, i, a);
          BinUnique(ys[0], ey, j, b);
        }
      }
    }
  }

  /** A pair outside the grid changes no count. */
  lemma Counts2Skip(xs: seq<real>, ys: seq<real>, ex: seq<real>, ey: seq<real>)
    requires |xs| == |ys| > 0 && |ex| >= 2 && |ey| >= 2 && Increasing(ex) && Increasing(ey)
    requires !(ex[0] <= xs[0] <= ex[|ex| - 1] && ey[0] <= ys[0] <= ey[|ey| - 1])
    ensures Counts2(xs, ys, ex, ey) == Counts2(xs[1..], ys[1..], ex, ey)
  {
    var r := Counts2(xs[1..], ys[1..], ex, ey);
    var c := Counts2(xs, ys, ex, ey);
    forall i | 0 <= i < |ex| - 1 ensures c[i] == r[i] {
      forall j | 0 <= j < |ey| - 1 ensures c[i][j] == r[i][j] {
        if InBin(xs[0], ex, i) && InBin(ys[0], ey, j) {
          BinInRange(xs[0], ex, i);
          BinInRange(ys[0], ey, j);
        }
      }
    }
  }

  /** Tallying the pairs one at a time gives the count of every cell, and the
      counts add up to the number of pairs inside the outer edges. */
  function BinCounts2(xs: seq<real>, ys: seq<real>, ex: seq<real>, ey: seq<real>): (c: seq<seq<real>>)
    requires |xs| == |ys| && |ex| >= 2 && |ey| >= 2 && Increasing(ex) && Increasing(ey)
    ensures c == Counts2(xs, ys, ex, ey)
    ensures Sum2(c) == InRangeCount2(xs, ys, ex[0], ex[|ex| - 1], ey[0], ey[|ey| - 1])
  {
    if xs == [] then
      var z := ZeroGrid(|ex| - 1, |ey| - 1);
      assert forall a :: 0 <= a < |ex| - 1 ==> z[a] == Counts2(xs, ys, ex, ey)[a];
      z
    else
      var rest := BinCounts2(xs[1..], ys[1..], ex, ey);
      if ex[0] <= xs[0] <= ex[|ex| - 1] && ey[0] <= ys[0] <= ey[|ey| - 1] then
        var a := FindBin(xs[0], ex);
        var b := FindBin(ys[0], ey);
        Counts2Tally(xs, ys, ex, ey, a, b);
        Sum2Increment(rest, a, b);
        rest[a := rest[a][b := rest[a][b] + 1.0]]
      else
        Counts2Skip(xs, ys, ex, ey);
        rest
  }

  /** The integral of a step function on a grid: value x cell area, summed. */
  function Integral2(d: seq<seq<real>>, ex: seq<real>, ey: seq<real>): real
    requires |ex| == |d| + 1
    requires forall a :: 0 <= a < |d| ==> |ey| == |d[a]| + 1
  {
    if d == [] then 0.0 else Integral(d[0], ey) * (ex[1] - ex[0]) + Integral2(d[1..], ex[1..], ey)
  }

  /** numpy's division of the grid counts by the cell areas and by `s`: row a
      is normalised along y by `BinScale(ex, a, s)`. */
  function Normalise2(c: seq<seq<real>>, ex: seq<real>, ey: seq<real>, s: real): (d: seq<seq<real>>)
    requires |ex| == |c| + 1 && Increasing(ex) && Increasing(ey) && s > 0.0
    requires forall a :: 0 <= a < |c| ==> |ey| == |c[a]| + 1
    ensures |d| == |c|
    ensures forall a :: 0 <= a < |c| ==> |d[a]| == |c[a]|
  {
    seq(|c|, a requires 0 <= a < |c| => Normalise(c[a], ey, BinScale(ex, a, s)))
  }

  /** Row a of the normalised grid is row a of the counts normalised by
      `BinScale(ex, a, s)`. */
  lemma {:induction false} Normalise2At(c: seq<seq<real>>, ex: seq<real>, ey: seq<real>, s: real, a: nat)
    requires |ex| == |c| + 1 && Increasing(ex) && Increasing(ey) && s > 0.0
    requires forall a :: 0 <= a < |c| ==> |ey| == |c[a]| + 1
    requires a < |c|
    ensures Normalise2(c, ex, ey, s)[a] == Normalise(c[a], ey, BinScale(ex, a, s))
  {
  }

  /** The rows after the first of a normalised grid are the rest of the
      grid normalised over the remaining x edges. */
  lemma Normalise2Tail(c: seq<seq<real>>, ex: seq<real>, ey: seq<real>, s: real)
    requires |ex| == |c| + 1 && Increasing(ex) && Increasing(ey) && s > 0.0
    requires forall a :: 0 <= a < |c| ==> |ey| == |c[a]| + 1
    requires |c| >= 1
    ensures Increasing(ex[1..])
    ensures forall b :: 0 <= b < |c| - 1 ==> |ey| == |c[1..][b]| + 1
    ensures forall b :: 0 <= b < |c| - 1 ==> Normalise2(c, ex, ey, s)[b + 1] == Normalise2(c[1..], ex[1..], ey, s)[b]
  {
    var ex' := ex[1..];
    forall j, k | 0 <= j < k < |ex'| ensures ex'[j] < ex'[k] {
      assert ex'[j] == ex[j + 1] && ex'[k] == ex[k + 1];
    }
    forall b | 0 <= b < |c| - 1 ensures |ey| == |c[1..][b]| + 1 {
      assert c[1..][b] == c[b + 1];
    }
    forall b | 0 <= b < |c| - 1
      ensures Normalise2(c, ex, ey, s)[b + 1] == Normalise2(c[1..], ex', ey, s)[b]
    {
      assert c[1..][b] == c[b + 1];
      assert BinScale(ex', b, s) == BinScale(ex, b + 1, s) by {
        assert ex'[b + 1] == ex[b + 2] && ex'[b] == ex[b + 1];
      }
    }
  }

  /** Normalising a grid by `s` divides its integral by `s`. */
  lemma {:induction false} Normalise2Integral(c: seq<seq<real>>, ex: seq<real>, ey: seq<real>, s: real)
    requires |ex| == |c| + 1 && Increasing(ex) && Increasing(ey) && s > 0.0
    requires forall a :: 0 <= a < |c| ==> |ey| == |c[a]| + 1
    ensures Integral2(Normalise2(c, ex, ey, s), ex, ey) == Sum2(c) / s
  {
    if c != [] {
      var d := Normalise2(c, ex, ey, s);
      var w := ex[1] - ex[0];
      assert w > 0.0 by { assert ex[0] < ex[1]; }
      assert BinScale(ex, 0, s) == w * s;
      var d0 := Normalise(c[0], ey, w * s);
      Normalise2Tail(c, ex, ey, s);
      assert d[0] == d0 && d[1..] == Normalise2(c[1..], ex[1..], ey, s);
      var rest := Integral2(d[1..], ex[1..], ey);
      assert rest == Sum2(c[1..]) / s by {
        Normalise2Integral(c[1..], ex[1..], ey, s);
      }
      assert Integral(d0, ey) == Sum(c[0]) / (w * s) by {
        NormaliseIntegral(c[0], ey, w * s);
      }
      NormaliseStep(Sum(c[0]), w, s, Integral(d0, ey), rest, Sum2(c[1..]));
    }
  }

  /** The per-axis bin counts `np.histogram2d` reads from its bins argument. */
  function AxisBins(g: GridBins): (int, int) {
    match g
    case Same(n) => (n, n)
    case PerAxis(n1, n2) => (n1, n2)
  }

  /** `h` is a 2-D density histogram of the pairs (xs[j], ys[j]) with b1 x b2
      cells over [lo1, hi1] x [lo2, hi2]: increasing, evenly spaced edges on
      each axis, some pair kept, and density = cell counts / (cell area x pairs
      kept). */
  ghost predicate IsDensity2Of(h: Hist2, xs: seq<real>, ys: seq<real>,
                               lo1: real, hi1: real, b1: int, lo2: real, hi2: real, b2: int)
  {
    && |xs| == |ys| && lo1 < hi1 && lo2 < hi2 && b1 >= 1 && b2 >= 1
    && |h.xedges| == b1 + 1 && h.xedges[0] == lo1 && h.xedges[b1] == hi1
    && |h.yedges| == b2 + 1 && h.yedges[0] == lo2 && h.yedges[b2] == hi2
    && |h.density| == b1 && (forall a :: 0 <= a < b1 ==> |h.density[a]| == b2)
    && Increasing(h.xedges) && EvenlySpaced(h.xedges)
    && Increasing(h.yedges) && EvenlySpaced(h.yedges)
    && exists n :: n == InRangeCount2(xs, ys, lo1, hi1, lo2, hi2) && n > 0.0
                && h.density == Normalise2(Counts2(xs, ys, h.xedges, h.yedges), h.xedges, h.yedges, n)
  }

  /** The 2-D density histogram over settled ranges on the linspace edges; no
      pair kept gives 0/0. */
  function Histogram2Over(xs: seq<real>, ys: seq<real>, lo1: real, hi1: real, b1: nat, lo2: real, hi2: real, b2: nat): (r: Result<Hist2>)
    requires |xs| == |ys| && lo1 < hi1 && lo2 < hi2 && b1 >= 1 && b2 >= 1
    ensures r.Ok? <==> InRangeCount2(xs, ys, lo1, hi1, lo2, hi2) > 0.0
    ensures r.Err? ==> r.error == NotFinite
    ensures r.Ok? ==> r.value.xedges == Edges(lo1, hi1, b1) && r.value.yedges == Edges(lo2, hi2, b2)
    ensures r.Ok? ==> |r.value.density| == b1 && forall a :: 0 <= a < b1 ==> |r.value.density[a]| == b2
  {
    var ex := Edges(lo1, hi1, b1);
    var ey := Edges(lo2, hi2, b2);
    var c := BinCounts2(xs, ys, ex, ey);
    if Sum2(c) == 0.0 then Err(NotFinite)
    else Ok(Hist2(Normalise2(c, ex, ey, Sum2(c)), ex, ey))
  }

  /** What `Histogram2Over` returns is a 2-D density histogram of the pairs. */
  lemma Histogram2OverIsDensity(xs: seq<real>, ys: seq<real>, lo1: real, hi1: real, b1: nat, lo2: real, hi2: real, b2: nat)
    requires |xs| == |ys| && lo1 < hi1 && lo2 < hi2 && b1 >= 1 && b2 >= 1
    requires Histogram2Over(xs, ys, lo1, hi1, b1, lo2, hi2, b2).Ok?
    ensures IsDensity2Of(Histogram2Over(xs, ys, lo1, hi1, b1, lo2, hi2, b2).value, xs, ys, lo1, hi1, b1, lo2, hi2, b2)
  {
    var h := Histogram2Over(xs, ys, lo1, hi1, b1, lo2, hi2, b2).value;
    EdgesEvenlySpaced(lo1, hi1, b1);
    EdgesEvenlySpaced(lo2, hi2, b2);
    var c := BinCounts2(xs, ys, h.xedges, h.yedges);
    assert h.density == Normalise2(Counts2(xs, ys, h.xedges, h.yedges), h.xedges, h.yedges, Sum2(c));
  }

  /** The area of grid cell (a, b) times `n`. */
  function CellScale(ex: seq<real>, ey: seq<real>, a: nat, b: nat, n: real): (r: real)
    requires Increasing(ex) && Increasing(ey) && a < |ex| - 1 && b < |ey| - 1 && n > 0.0
    ensures r > 0.0
  {
    BinScale(ey, b, BinScale(ex, a, n))
  }

  /** Cell (a, b) of a normalised grid is entry (a, b) over (cell area x s). */
  lemma Normalise2CellAt(c: seq<seq<real>>, ex: seq<real>, ey: seq<real>, s: real, a: nat, b: nat)
    requires |ex| == |c| + 1 && Increasing(ex) && Increasing(ey) && s > 0.0
    requires forall a :: 0 <= a < |c| ==> |ey| == |c[a]| + 1
    requires a < |c| && b < |c[a]|
    ensures Normalise2(c, ex, ey, s)[a][b] == c[a][b] / CellScale(ex, ey, a, b, s)
  {
    Normalise2At(c, ex, ey, s, a);
    NormaliseAt(c[a], ey, BinScale(ex, a, s), b);
  }

  /** Normalising a grid of non-negative counts gives non-negative values. */
  lemma {:induction false} Normalise2NonNegative(c: seq<seq<real>>, ex: seq<real>, ey: seq<real>, s: real)
    requires |ex| == |c| + 1 && Increasing(ex) && Increasing(ey) && s > 0.0
    requires forall a :: 0 <= a < |c| ==> |ey| == |c[a]| + 1
    requires forall a, b :: 0 <= a < |c| && 0 <= b < |c[a]| ==> c[a][b] >= 0.0
    ensures forall a, b :: 0 <= a < |c| && 0 <= b < |c[a]| ==> Normalise2(c, ex, ey, s)[a][b] >= 0.0
  {
    forall a | 0 <= a < |c| ensures forall b :: 0 <= b < |c[a]| ==> Normalise2(c, ex, ey, s)[a][b] >= 0.0 {
      Normalise2At(c, ex, ey, s, a);
      NormaliseNonNegative(c[a], ey, BinScale(ex, a, s));
    }
  }

  /** Cell (a, b) of a 2-D density histogram holds (pairs in the cell) /
      (cell area x pairs kept). */
  lemma Density2At(h: Hist2, xs: seq<real>, ys: seq<real>,
                   lo1: real, hi1: real, b1: int, lo2: real, hi2: real, b2: int, a: nat, b: nat, n: real)
    requires IsDensity2Of(h, xs, ys, lo1, hi1, b1, lo2, hi2, b2) && a < b1 && b < b2
    requires n == InRangeCount2(xs, ys, lo1, hi1, lo2, hi2)
    ensures h.density[a][b] == CountInCell(xs, ys, h.xedges, h.yedges, a, b) / CellScale(h.xedges, h.yedges, a, b, n)
  {
    var c := Counts2(xs, ys, h.xedges, h.yedges);
    Counts2At(xs, ys, h.xedges, h.yedges, a, b);
    Normalise2CellAt(c, h.xedges, h.yedges, n, a, b);
  }

  /** A 2-D density histogram is never negative. */
  lemma Density2NonNegative(h: Hist2, xs: seq<real>, ys: seq<real>,
                            lo1: real, hi1: real, b1: int, lo2: real, hi2: real, b2: int)
    requires IsDensity2Of(h, xs, ys, lo1, hi1, b1, lo2, hi2, b2)
    ensures forall a, b :: 0 <= a < |h.density| && 0 <= b < |h.density[a]| ==> h.density[a][b] >= 0.0
  {
    var c := BinCounts2(xs, ys, h.xedges, h.yedges);
    Normalise2NonNegative(c, h.xedges, h.yedges, Sum2(c));
  }

  /** The 2-D density integrates to one over the grid. */
  lemma Density2Integral(h: Hist2, xs: seq<real>, ys: seq<real>,
                         lo1: real, hi1: real, b1: int, lo2: real, hi2: real, b2: int)
    requires IsDensity2Of(h, xs, ys, lo1, hi1, b1, lo2, hi2, b2)
    ensures Integral2(h.density, h.xedges, h.yedges) == 1.0
  {
    var c := BinCounts2(xs, ys, h.xedges, h.yedges);
    Normalise2Integral(c, h.xedges, h.yedges, Sum2(c));
    DivSelf(Sum2(c));
  }

  /** `np.histogram2d(xs, ys, bins=g, range=((a1, z1), (a2, z2)), density=True)`;
      numpy checks the lengths first, then each axis's count and range in turn. */
  function Histogram2D(xs: seq<real>, ys: seq<real>, a1: real, z1: real, a2: real, z2: real, g: GridBins): (r: Result<Hist2>)
    ensures |xs| != |ys| ==> r == Err(LengthMismatch)
    ensures r.Ok? <==>
      && |xs| == |ys| && AxisBins(g).0 >= 1 && AxisBins(g).1 >= 1 && a1 <= z1 && a2 <= z2
      && InRangeCount2(xs, ys, Outer(a1, z1).0, Outer(a1, z1).1, Outer(a2, z2).0, Outer(a2, z2).1) > 0.0
    ensures r.Ok? ==> r.value.xedges == Edges(Outer(a1, z1).0, Outer(a1, z1).1, AxisBins(g).0)
    ensures r.Ok? ==> r.value.yedges == Edges(Outer(a2, z2).0, Outer(a2, z2).1, AxisBins(g).1)
    ensures r.Ok? ==> |r.value.density| == AxisBins(g).0 && forall a :: 0 <= a < AxisBins(g).0 ==> |r.value.density[a]| == AxisBins(g).1
  {
    var (n1, n2) := AxisBins(g);
    if |xs| != |ys| then Err(LengthMismatch)
    else if n1 < 1 then Err(NonPositiveBins)
    else if a1 > z1 then Err(InvertedRange)
    else if n2 < 1 then Err(NonPositiveBins)
    else if a2 > z2 then Err(InvertedRange)
    else Histogram2Over(xs, ys, Outer(a1, z1).0, Outer(a1, z1).1, n1, Outer(a2, z2).0, Outer(a2, z2).1, n2)
  }

  /** What `Histogram2D` returns is a 2-D density histogram of the pairs over the widened ranges. */
  lemma Histogram2DIsDensity(xs: seq<real>, ys: seq<real>, a1: real, z1: real, a2: real, z2: real, g: GridBins)
    requires Histogram2D(xs, ys, a1, z1, a2, z2, g).Ok?
    ensures IsDensity2Of(Histogram2D(xs, ys, a1, z1, a2, z2, g).value, xs, ys, Outer(a1, z1).0, Outer(a1, z1).1, AxisBins(g).0,
                         Outer(a2, z2).0, Outer(a2, z2).1, AxisBins(g).1)
  {
    Histogram2OverIsDensity(xs, ys, Outer(a1, z1).0, Outer(a1, z1).1, AxisBins(g).0, Outer(a2, z2).0, Outer(a2, z2).1, AxisBins(g).1);
  }
}
