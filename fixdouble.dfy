/** `fix_double_inforate_square(data1, data2, time_data, int_bins, int_range)`:
    the fixed-range rate series of a joint distribution.

    For every window t the samples of window t of `data1` are paired, position
    by position, with those of window t of `data2` (each array first repeated
    along its channel axis as many times as the other has channels, when the
    channel counts differ), and the pairs are histogrammed in two dimensions
    over [-r1, r1] x [-r2, r2] with the given bins. Entry t of the series is
    the 2-D rate from density t to density t + 1, with one cell side per axis
    (the first centre gap) and one dt (the gap between the first two time
    stamps) for every entry. */
module FixDouble {
  import opened Common
  import opened Binning
  import opened Histogram
  import opened InfoRate
  import opened Adj2dCollect
  import opened FixRange

  /** `int_range`: one half-width for both axes or a pair of them. */
  datatype HalfWidths = Both(r: real) | Axes(r1: real, r2: real)

  /** The half-widths (r1, r2) of the two axes: a pair gives one per axis and
      a single number the same on both. */
  function AxisHalfWidths(range: HalfWidths): (h: (real, real))
    ensures range.Both? ==> h.0 == h.1 == range.r
    ensures range.Axes? ==> h.0 == range.r1 && h.1 == range.r2
  {
    match range
    case Both(r) => (r, r)
    case Axes(r1, r2) => (r1, r2)
  }

  /** Window t of an array for every t, each flattened channel by channel as
      `data[:, t, :].flatten()` gives it. */
  function WindowRows(d: Array3): (rows: seq<seq<real>>)
    requires d.Valid()
    ensures |rows| == d.t
    ensures forall t :: 0 <= t < d.t ==> |rows[t]| == d.n * d.w && rows[t] == d.Window(t)
  {
    seq(d.t, t requires 0 <= t < d.t => d.Window(t))
  }

  /** The paired sample vectors of every window: the channel axis matched by
      tiling, and then window t of either array flattened. With equal window
      lengths, the two vectors of a window have equal length. */
  function PairedRows(d1: Array3, d2: Array3): (rows: (seq<seq<real>>, seq<seq<real>>))
    requires d1.Valid() && d2.Valid() && d1.t == d2.t && d1.w == d2.w
    ensures |rows.0| == |rows.1| == d1.t
    ensures forall t :: 0 <= t < d1.t ==> |rows.0[t]| == |rows.1[t]|
    ensures d1.n == d2.n ==> rows == (WindowRows(d1), WindowRows(d2))
    ensures d1.n != d2.n ==> forall t :: 0 <= t < d1.t ==> |rows.0[t]| == d1.n * d2.n * d1.w
  {
    var m := Matched(d1, d2);
    (WindowRows(m.0), WindowRows(m.1))
  }

  /** The 2-D density of every window over the settled ranges, in window
      order; a window with no pair in range makes its density 0/0. */
  function Densities2(xs: seq<seq<real>>, ys: seq<seq<real>>, lo1: real, hi1: real, b1: nat, lo2: real, hi2: real, b2: nat): (r: Result<seq<seq<seq<real>>>>)
    requires |xs| == |ys| && forall t :: 0 <= t < |xs| ==> |xs[t]| == |ys[t]|
    requires lo1 < hi1 && lo2 < hi2 && b1 >= 1 && b2 >= 1
    ensures r.Ok? <==> forall t :: 0 <= t < |xs| ==> InRangeCount2(xs[t], ys[t], lo1, hi1, lo2, hi2) > 0.0
    ensures r.Err? ==> r.error == NotFinite
    ensures r.Ok? ==> |r.value| == |xs| && AllOfShape(r.value, b1, b2)
  {
    if forall t :: 0 <= t < |xs| ==> InRangeCount2(xs[t], ys[t], lo1, hi1, lo2, hi2) > 0.0 then
      Ok(seq(|xs|, t requires 0 <= t < |xs| => Histogram2Over(xs[t], ys[t], lo1, hi1, b1, lo2, hi2, b2).value.density))
    else Err(NotFinite)
  }

  /** Entry t of the densities is the 2-D density histogram of the pairs of
      window t on the shared grid. */
  lemma Densities2At(xs: seq<seq<real>>, ys: seq<seq<real>>, lo1: real, hi1: real, b1: nat, lo2: real, hi2: real, b2: nat, t: nat)
    requires |xs| == |ys| && forall t :: 0 <= t < |xs| ==> |xs[t]| == |ys[t]|
    requires lo1 < hi1 && lo2 < hi2 && b1 >= 1 && b2 >= 1
    requires Densities2(xs, ys, lo1, hi1, b1, lo2, hi2, b2).Ok? && t < |xs|
    ensures IsDensity2Of(Hist2(Densities2(xs, ys, lo1, hi1, b1, lo2, hi2, b2).value[t], Edges(lo1, hi1, b1), Edges(lo2, hi2, b2)),
                         xs[t], ys[t], lo1, hi1, b1, lo2, hi2, b2)
  {
    Histogram2OverIsDensity(xs[t], ys[t], lo1, hi1, b1, lo2, hi2, b2);
  }

  /** When the joint series over the pairs (xs[t], ys[t]) is defined, with
      numpy's range arguments (a1, z1) and (a2, z2): at least two bins on
      each axis (a centre gap to read) over ranges that are not inverted, two
      time rows with a first column, a pair in range in every window, and two
      distinct first time stamps. */
  ghost predicate Series2Defined(xs: seq<seq<real>>, ys: seq<seq<real>>, a1: real, z1: real, a2: real, z2: real,
                                 b1: int, b2: int, time: Array2)
    requires time.Valid() && |xs| == |ys| == time.rows && forall t :: 0 <= t < |xs| ==> |xs[t]| == |ys[t]|
  {
    && b1 >= 2 && b2 >= 2 && a1 <= z1 && a2 <= z2 && time.rows >= 2 && time.cols >= 1
    && (forall t :: 0 <= t < |xs| ==>
          InRangeCount2(xs[t], ys[t], Outer(a1, z1).0, Outer(a1, z1).1, Outer(a2, z2).0, Outer(a2, z2).1) > 0.0)
    && time.at[1][0] != time.at[0][0]
  }

  /** The rates of consecutive joint densities once the series is defined:
      entry t is the 2-D rate from density t to density t + 1 with the bin
      widths of the two axes as cell sides. */
  function Series2Rates(xs: seq<seq<real>>, ys: seq<seq<real>>, a1: real, z1: real, a2: real, z2: real,
                        b1: nat, b2: nat, time: Array2, sqrt: real -> real): (rates: seq<real>)
    requires time.Valid() && |xs| == |ys| == time.rows && forall t :: 0 <= t < |xs| ==> |xs[t]| == |ys[t]|
    requires Series2Defined(xs, ys, a1, z1, a2, z2, b1, b2, time)
    ensures |rates| == time.rows - 1
    ensures var ps := Densities2(xs, ys, Outer(a1, z1).0, Outer(a1, z1).1, b1, Outer(a2, z2).0, Outer(a2, z2).1, b2).value;
      forall t :: 0 <= t < |rates| ==> rates[t] >= 0.0 && (rates[t] == 0.0 <==> RootsAgree2(ps[t], ps[t + 1], sqrt))
  {
    var lo1, hi1 := Outer(a1, z1).0, Outer(a1, z1).1;
    var lo2, hi2 := Outer(a2, z2).0, Outer(a2, z2).1;
    var ps := Densities2(xs, ys, lo1, hi1, b1, lo2, hi2, b2).value;
    var dt, dx, dy := time.at[1][0] - time.at[0][0], Width(lo1, hi1, Real(b1)), Width(lo2, hi2, Real(b2));
    WidthFacts(lo1, hi1, Real(b1));
    WidthFacts(lo2, hi2, Real(b2));
    RateSeries2Facts(ps, b1, b2, dt, dx, dy, sqrt);
    RateSeries2(ps, b1, b2, dt, dx, dy, sqrt)
  }

  /** The joint series over the pairs (xs[t], ys[t]). numpy fails, in this
      order, on no window at all (nothing to unpack), a bin count below one
      or an inverted range on the first axis, then on the second, fewer than
      two bins on an axis (no centre gap), fewer than two time rows or no
      time column; a window with no pair in range (0/0) and equal first time
      stamps (x/0) give non-finite rates. */
  function FixSeries2(xs: seq<seq<real>>, ys: seq<seq<real>>, a1: real, z1: real, a2: real, z2: real,
                      b1: int, b2: int, time: Array2, sqrt: real -> real): (r: Result<Series>)
    requires time.Valid() && |xs| == |ys| == time.rows && forall t :: 0 <= t < |xs| ==> |xs[t]| == |ys[t]|
    ensures r.Ok? <==> Series2Defined(xs, ys, a1, z1, a2, z2, b1, b2, time)
    ensures time.rows == 0 ==> r == Err(EmptyArray)
    ensures time.rows > 0 && b1 < 1 ==> r == Err(NonPositiveBins)
    ensures time.rows > 0 && b1 >= 1 && a1 > z1 ==> r == Err(InvertedRange)
    ensures time.rows > 0 && b1 >= 1 && a1 <= z1 && b2 < 1 ==> r == Err(NonPositiveBins)
    ensures time.rows > 0 && b1 >= 1 && a1 <= z1 && b2 >= 1 && a2 > z2 ==> r == Err(InvertedRange)
    ensures r.Ok? ==> r.value.rates == Series2Rates(xs, ys, a1, z1, a2, z2, b1, b2, time, sqrt) && r.value.times == LeadingStamps(time)
  {
    if time.rows == 0 then Err(EmptyArray)
    else if b1 < 1 then Err(NonPositiveBins)
    else if a1 > z1 then Err(InvertedRange)
    else if b2 < 1 then Err(NonPositiveBins)
    else if a2 > z2 then Err(InvertedRange)
    else if b1 < 2 || b2 < 2 || time.rows < 2 || time.cols == 0 then Err(IndexOutOfRange)
    else
      match Densities2(xs, ys, Outer(a1, z1).0, Outer(a1, z1).1, b1, Outer(a2, z2).0, Outer(a2, z2).1, b2)
      case Err(e) => Err(e)
      case Ok(_) =>
        if time.at[1][0] == time.at[0][0] then Err(NotFinite)
        else Ok(Series(Series2Rates(xs, ys, a1, z1, a2, z2, b1, b2, time, sqrt), LeadingStamps(time)))
  }

  /** `fix_double_inforate_square`: the joint series of the paired windows,
      axis a binned over [-r_a, r_a]. The window counts of the three arrays
      and the window lengths agree, as the source asserts, so its branch for
      different window counts is never taken. */
  function FixDoubleRate(d1: Array3, d2: Array3, time: Array2, g: GridBins, range: HalfWidths, sqrt: real -> real): (r: Result<Series>)
    requires d1.Valid() && d2.Valid() && time.Valid()
    requires d1.t == time.rows && d2.t == time.rows && d1.w == time.cols && d2.w == time.cols
    ensures r.Ok? <==> Series2Defined(PairedRows(d1, d2).0, PairedRows(d1, d2).1, -AxisHalfWidths(range).0, AxisHalfWidths(range).0,
                                      -AxisHalfWidths(range).1, AxisHalfWidths(range).1, AxisBins(g).0, AxisBins(g).1, time)
    ensures time.rows > 0 && AxisBins(g).0 >= 1 && AxisHalfWidths(range).0 < 0.0 ==> r == Err(InvertedRange)
    ensures r.Ok? ==>
      && r.value.rates == Series2Rates(PairedRows(d1, d2).0, PairedRows(d1, d2).1, -AxisHalfWidths(range).0, AxisHalfWidths(range).0,
                                       -AxisHalfWidths(range).1, AxisHalfWidths(range).1, AxisBins(g).0, AxisBins(g).1, time, sqrt)
      && r.value.times == LeadingStamps(time)
  {
    FixSeries2(PairedRows(d1, d2).0, PairedRows(d1, d2).1, -AxisHalfWidths(range).0, AxisHalfWidths(range).0,
               -AxisHalfWidths(range).1, AxisHalfWidths(range).1, AxisBins(g).0, AxisBins(g).1, time, sqrt)
  }
}
