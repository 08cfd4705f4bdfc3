/** The fixed-range rate series shared by `fix_single_inforate_square` and
    `fix_collect_inforate_square`.

    Every window (one row of samples) is histogrammed with `histogram_func`
    over the same explicit range and bin count, so all densities share one set
    of edges. Entry t of the series is the rate from density t to density
    t + 1, with one dx (the first centre gap, that is the bin width) and one
    dt (the gap between the first two time stamps) for every entry; the time
    stamps returned are the first column of every row but the last. */
module FixRange {
  import opened Common
  import opened Histogram
  import opened InfoRate

  /** A rate series with the time stamp of the earlier window of each entry. */
  datatype Series = Series(rates: seq<real>, times: seq<real>)

  /** The density of every window over the settled range [lo, hi], in window
      order; a window with no sample in range makes its density 0/0. */
  function Densities(rows: seq<seq<real>>, lo: real, hi: real, bins: nat): (r: Result<seq<seq<real>>>)
    requires lo < hi && bins >= 1
    ensures r.Ok? <==> forall t :: 0 <= t < |rows| ==> InRangeCount(rows[t], lo, hi) > 0.0
    ensures r.Err? ==> r.error == NotFinite
    ensures r.Ok? ==> |r.value| == |rows| && AllOfLength(r.value, bins)
  {
    if rows == [] then Ok([])
    else
      var h :- HistogramOver(rows[0], lo, hi, bins);
      var rest :- Densities(rows[1..], lo, hi, bins);
      Ok([h.density] + rest)
  }

  /** Entry t of the densities is the density histogram of window t on the
      shared edges. */
  lemma {:induction false} DensitiesAt(rows: seq<seq<real>>, lo: real, hi: real, bins: nat, t: nat)
    requires lo < hi && bins >= 1 && Densities(rows, lo, hi, bins).Ok? && t < |rows|
    ensures IsDensityOf(Hist(Densities(rows, lo, hi, bins).value[t], Edges(lo, hi, bins)), rows[t], lo, hi, bins)
  {
    if t == 0 {
      HistogramOverIsDensity(rows[0], lo, hi, bins);
    } else {
      DensitiesAt(rows[1..], lo, hi, bins, t - 1);
      assert Densities(rows, lo, hi, bins).value[t] == Densities(rows[1..], lo, hi, bins).value[t - 1];
    }
  }

  /** Entry t of the densities is what the histogram of window t alone gives. */
  lemma {:induction false} DensitiesEntry(rows: seq<seq<real>>, lo: real, hi: real, bins: nat, t: nat)
    requires lo < hi && bins >= 1 && Densities(rows, lo, hi, bins).Ok? && t < |rows|
    ensures HistogramOver(rows[t], lo, hi, bins).Ok?
    ensures Densities(rows, lo, hi, bins).value[t] == HistogramOver(rows[t], lo, hi, bins).value.density
  {
    if t > 0 {
      DensitiesEntry(rows[1..], lo, hi, bins, t - 1);
      assert Densities(rows, lo, hi, bins).value[t] == Densities(rows[1..], lo, hi, bins).value[t - 1];
    }
  }

  /** `time[:-1, 0]`: the first time stamp of every window but the last. */
  function LeadingStamps(time: Array2): (s: seq<real>)
    requires time.Valid() && time.rows >= 1 && time.cols >= 1
    ensures |s| == time.rows - 1
    ensures forall t :: 0 <= t < |s| ==> s[t] == time.at[t][0]
  {
    seq(time.rows - 1, t requires 0 <= t < time.rows - 1 => time.at[t][0])
  }

  /** When the series is defined: a window to histogram, a bin count of at
      least two (a centre gap to read) over a range that is not inverted, two
      time rows with a first column, a sample in range in every window, and
      two distinct first time stamps. */
  ghost predicate SeriesDefined(rows: seq<seq<real>>, a: real, b: real, bins: int, time: Array2)
    requires time.Valid() && |rows| == time.rows
  {
    && bins >= 2 && a <= b && |rows| >= 2 && time.cols >= 1
    && (forall t :: 0 <= t < |rows| ==> InRangeCount(rows[t], Outer(a, b).0, Outer(a, b).1) > 0.0)
    && time.at[1][0] != time.at[0][0]
  }

  /** The rates of consecutive densities over the range numpy settles on for
      (a, b), once the series is defined. */
  function SeriesRates(rows: seq<seq<real>>, a: real, b: real, bins: int, time: Array2, sqrt: real -> real): (rates: seq<real>)
    requires time.Valid() && |rows| == time.rows && SeriesDefined(rows, a, b, bins, time)
    ensures |rates| == |rows| - 1
  {
    var (lo, hi) := Outer(a, b);
    RateSeries(Densities(rows, lo, hi, bins).value, bins, time.at[1][0] - time.at[0][0], Width(lo, hi, Real(bins)), sqrt)
  }

  /** The series over `rows` with numpy's range argument (a, b). numpy fails,
      in this order, on no window at all (`apply_along_axis`), a bin count
      below one, an inverted range, fewer than two bins (no centre gap),
      fewer than two time rows or no time column; a window with no sample in
      range (0/0) and equal first time stamps (x/0) give non-finite rates. */
  function FixSeries(rows: seq<seq<real>>, a: real, b: real, bins: int, time: Array2, sqrt: real -> real): (r: Result<Series>)
    requires time.Valid() && |rows| == time.rows
    ensures r.Ok? <==> SeriesDefined(rows, a, b, bins, time)
    ensures |rows| == 0 ==> r == Err(EmptyArray)
    ensures |rows| > 0 && bins < 1 ==> r == Err(NonPositiveBins)
    ensures |rows| > 0 && bins >= 1 && a > b ==> r == Err(InvertedRange)
    ensures r.Ok? ==> r.value.rates == SeriesRates(rows, a, b, bins, time, sqrt) && r.value.times == LeadingStamps(time)
  {
    if |rows| == 0 then Err(EmptyArray)
    else if bins < 1 then Err(NonPositiveBins)
    else if a > b then Err(InvertedRange)
    else if bins < 2 || |rows| < 2 || time.cols == 0 then Err(IndexOutOfRange)
    else
      var (lo, hi) := Outer(a, b);
      match Densities(rows, lo, hi, bins)
      case Err(e) => Err(e)
      case Ok(_) =>
        if time.at[1][0] == time.at[0][0] then Err(NotFinite)
        else Ok(Series(SeriesRates(rows, a, b, bins, time, sqrt), LeadingStamps(time)))
  }

  /** The root densities p and q agree in each of the first `bins` bins. */
  ghost predicate SameRoots(p: seq<real>, q: seq<real>, bins: int, sqrt: real -> real)
    requires |p| == |q| == bins
  {
    forall k :: 0 <= k < bins ==> sqrt(p[k]) == sqrt(q[k])
  }

  /** Every rate of a defined series is non-negative, and entry t is zero
      exactly when the root densities of windows t and t + 1 agree bin by bin. */
  lemma {:induction false} SeriesRatesFacts(rows: seq<seq<real>>, a: real, b: real, bins: int, time: Array2, sqrt: real -> real, t: nat)
    requires time.Valid() && |rows| == time.rows && SeriesDefined(rows, a, b, bins, time) && t < |rows| - 1
    ensures var ps := Densities(rows, Outer(a, b).0, Outer(a, b).1, bins).value;
      && SeriesRates(rows, a, b, bins, time, sqrt)[t] >= 0.0
      && (SeriesRates(rows, a, b, bins, time, sqrt)[t] == 0.0 <==> SameRoots(ps[t], ps[t + 1], bins, sqrt))
  {
    var lo, hi := Outer(a, b).0, Outer(a, b).1;
    var ps := Densities(rows, lo, hi, bins).value;
    assert |ps[t]| == bins;
    var dt := time.at[1][0] - time.at[0][0];
    var dx := Width(lo, hi, Real(bins));
    WidthFacts(lo, hi, Real(bins));
    assert SeriesRates(rows, a, b, bins, time, sqrt)[t] == FixRate(ps[t], ps[t + 1], dt, dx, sqrt);
    FixRateNonNegative(ps[t], ps[t + 1], dt, dx, sqrt);
    FixRateZero(ps[t], ps[t + 1], dt, dx, sqrt);
  }

  /** The dx of the series is the gap between the first two bin centres of
      any window, which all share the edges of the settled range. */
  lemma SeriesBinGap(a: real, b: real, bins: nat)
    requires a <= b && bins >= 2
    ensures var (lo, hi) := Outer(a, b);
      var c := Centres(Edges(lo, hi, bins));
      c[1] - c[0] == Width(lo, hi, Real(bins))
  {
    var (lo, hi) := Outer(a, b);
    EdgesEvenlySpaced(lo, hi, bins);
    CentresOfEdges(Edges(lo, hi, bins));
  }
}
