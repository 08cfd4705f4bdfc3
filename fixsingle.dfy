/** `fix_single_inforate_square(data, time_data, int_bins, int_range)`: the
    rate series of one signal cut into T windows (the rows of a T x W array),
    every window histogrammed over the symmetric range [-r, r]. */
module FixSingle {
  import opened Common
  import opened Histogram
  import opened FixRange

  /** `histogram_func(xs, r, bins)`: the density of one window over [-r, r]
      and its bin centres. numpy refuses fewer than one bin and a negative r
      (an inverted range); a window with no sample in range gives 0/0. */
  function HistogramFunc(xs: seq<real>, r: real, bins: int): (res: Result<(seq<real>, seq<real>)>)
    ensures bins < 1 ==> res == Err(NonPositiveBins)
    ensures bins >= 1 && r < 0.0 ==> res == Err(InvertedRange)
    ensures res.Ok? <==> bins >= 1 && r >= 0.0 && InRangeCount(xs, Outer(-r, r).0, Outer(-r, r).1) > 0.0
    ensures res.Ok? ==> |res.value.0| == bins && res.value.1 == Centres(Edges(Outer(-r, r).0, Outer(-r, r).1, bins))
  {
    var h :- Histogram1D(xs, -r, r, bins);
    Ok((h.density, Centres(h.edges)))
  }

  /** The density `histogram_func` returns is a density histogram of the
      window over [-r, r], widened to [-0.5, 0.5] when r is zero. */
  lemma HistogramFuncDensity(xs: seq<real>, r: real, bins: int)
    requires HistogramFunc(xs, r, bins).Ok?
    ensures IsDensityOf(Hist(HistogramFunc(xs, r, bins).value.0, Edges(Outer(-r, r).0, Outer(-r, r).1, bins)),
                        xs, Outer(-r, r).0, Outer(-r, r).1, bins)
  {
    var h := Histogram1D(xs, -r, r, bins).value;
    assert Hist(HistogramFunc(xs, r, bins).value.0, Edges(Outer(-r, r).0, Outer(-r, r).1, bins)) == h;
    Histogram1DIsDensity(xs, -r, r, bins);
  }

  /** The density `histogram_func` returns is the one histogramming over the
      settled range gives. */
  lemma HistogramFuncIsOver(xs: seq<real>, r: real, bins: int)
    requires HistogramFunc(xs, r, bins).Ok?
    ensures bins >= 1 && Outer(-r, r).0 < Outer(-r, r).1
    ensures HistogramOver(xs, Outer(-r, r).0, Outer(-r, r).1, bins).Ok?
    ensures HistogramFunc(xs, r, bins).value.0 == HistogramOver(xs, Outer(-r, r).0, Outer(-r, r).1, bins).value.density
  {
  }

  /** `fix_single_inforate_square`: the fixed-range series of the windows
      over [-r, r]. It is defined exactly when there are two windows, at least
      two bins, r is not negative, every window has a sample in range and the
      first two time stamps differ. */
  function FixSingleRate(data: Array2, time: Array2, bins: int, r: real, sqrt: real -> real): (res: Result<Series>)
    requires data.Valid() && time.Valid() && data.rows == time.rows
    ensures res.Ok? <==> SeriesDefined(data.at, -r, r, bins, time)
    ensures data.rows > 0 && bins >= 1 && r < 0.0 ==> res == Err(InvertedRange)
    ensures res.Ok? ==> res.value.rates == SeriesRates(data.at, -r, r, bins, time, sqrt) && res.value.times == LeadingStamps(time)
  {
    FixSeries(data.at, -r, r, bins, time, sqrt)
  }

  /** The density of window t in the series is the one `histogram_func`
      gives for that window alone. */
  lemma WindowDensityIsHistogramFunc(rows: seq<seq<real>>, r: real, bins: int, t: nat)
    requires r >= 0.0 && bins >= 1 && t < |rows|
    requires Densities(rows, Outer(-r, r).0, Outer(-r, r).1, bins).Ok?
    ensures HistogramFunc(rows[t], r, bins).Ok?
    ensures HistogramFunc(rows[t], r, bins).value.0 == Densities(rows, Outer(-r, r).0, Outer(-r, r).1, bins).value[t]
  {
    DensitiesEntry(rows, Outer(-r, r).0, Outer(-r, r).1, bins, t);
    HistogramFuncIsOver(rows[t], r, bins);
  }

  /** Every entry of the series is non-negative. */
  lemma FixSingleRateNonNegative(data: Array2, time: Array2, bins: int, r: real, sqrt: real -> real, t: nat)
    requires data.Valid() && time.Valid() && data.rows == time.rows
    requires SeriesDefined(data.at, -r, r, bins, time) && t < data.rows - 1
    ensures FixSingleRate(data, time, bins, r, sqrt).value.rates[t] >= 0.0
  {
    SeriesRatesFacts(data.at, -r, r, bins, time, sqrt, t);
  }

  /** Entry t of the series is zero exactly when the root densities
      `histogram_func` gives for windows t and t + 1 agree bin by bin. */
  lemma FixSingleRateZero(data: Array2, time: Array2, bins: int, r: real, sqrt: real -> real, t: nat)
    requires data.Valid() && time.Valid() && data.rows == time.rows
    requires SeriesDefined(data.at, -r, r, bins, time) && t < data.rows - 1
    ensures HistogramFunc(data.at[t], r, bins).Ok? && HistogramFunc(data.at[t + 1], r, bins).Ok?
    ensures FixSingleRate(data, time, bins, r, sqrt).value.rates[t] == 0.0 <==>
      SameRoots(HistogramFunc(data.at[t], r, bins).value.0, HistogramFunc(data.at[t + 1], r, bins).value.0, bins, sqrt)
  {
    SeriesRatesFacts(data.at, -r, r, bins, time, sqrt, t);
    WindowDensityIsHistogramFunc(data.at, r, bins, t);
    WindowDensityIsHistogramFunc(data.at, r, bins, t + 1);
  }
}
