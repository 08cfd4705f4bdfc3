/** One step of the adjacent-window information rate,
    `adj_collect_inforate_square(data, time, i, bins_size)`.

    `data` holds N signals cut into T windows of W samples; window i pools the
    N x W samples `data[:, i, :]`. Windows i and i + 1 are histogrammed over the
    range they share, on the same bins, and the rate between them is the
    adjacent form of the information-rate functional with dt the gap between
    the first time stamps of the two windows and dx the gap between bin
    centres. Python's negative indices are honoured (i = -1 pairs the last
    window with the first). */
module AdjCollect {
  import opened Common
  import opened Binning
  import opened Histogram
  import opened InfoRate

  /** The range two windows share: from the smaller minimum to the larger maximum. */
  function SharedRange(before: seq<real>, after: seq<real>): (r: (real, real))
    requires |before| > 0 && |after| > 0
    ensures r.0 <= r.1
    ensures forall x :: x in before ==> r.0 <= x <= r.1
    ensures forall x :: x in after ==> r.0 <= x <= r.1
    ensures (r.0 in before || r.0 in after) && (r.1 in before || r.1 in after)
  {
    (Min(SeqMin(before), SeqMin(after)), Max(SeqMax(before), SeqMax(after)))
  }

  /** The density histogram of a window over a range holding all of its
      samples; numpy cannot fail on it once there is a bin. */
  function WindowDensity(xs: seq<real>, a: real, b: real, bins: int): (h: Hist)
    requires |xs| > 0 && a <= b && bins >= 1
    requires forall x :: x in xs ==> a <= x <= b
    ensures h.edges == Edges(Outer(a, b).0, Outer(a, b).1, bins) && |h.density| == bins
    ensures EvenlySpaced(h.edges)
  {
    AllInRange(xs, Outer(a, b).0, Outer(a, b).1);
    EdgesEvenlySpaced(Outer(a, b).0, Outer(a, b).1, bins);
    Histogram1D(xs, a, b, bins).value
  }

  /** The gap between the first two bin centres of linspace edges: the bin width. */
  function CentreGap(e: seq<real>): (dx: real)
    requires |e| >= 3 && Increasing(e) && EvenlySpaced(e)
    ensures dx == e[1] - e[0] && dx > 0.0
  {
    CentresOfEdges(e);
    Centres(e)[1] - Centres(e)[0]
  }

  /** The rate from window `before` to window `after` once the bins (at least
      two) and the time step (non-zero) are settled. It is never negative, and
      it is zero exactly when the root densities agree bin by bin. */
  function PairRate(before: seq<real>, after: seq<real>, bins: int, dt: real, sqrt: real -> real): (r: real)
    requires |before| > 0 && |after| > 0 && bins >= 2 && dt != 0.0
    ensures r >= 0.0
    ensures var range := SharedRange(before, after);
      var p := WindowDensity(before, range.0, range.1, bins);
      var q := WindowDensity(after, range.0, range.1, bins);
      r == 0.0 <==> forall k :: 0 <= k < bins ==> sqrt(p.density[k]) == sqrt(q.density[k])
  {
    var range := SharedRange(before, after);
    var p := WindowDensity(before, range.0, range.1, bins);
    var q := WindowDensity(after, range.0, range.1, bins);
    var dx := CentreGap(p.edges);
    AdjRateNonNegative(p.density, q.density, dt, dx, sqrt);
    AdjRateZero(p.density, q.density, dt, dx, sqrt);
    AdjRate(p.density, q.density, dt, dx, sqrt)
  }

  /** The rate does not depend on which of the two windows comes first. */
  lemma PairRateSymmetric(before: seq<real>, after: seq<real>, bins: int, dt: real, sqrt: real -> real)
    requires |before| > 0 && |after| > 0 && bins >= 2 && dt != 0.0
    ensures PairRate(before, after, bins, dt, sqrt) == PairRate(after, before, bins, dt, sqrt)
  {
    var range := SharedRange(before, after);
    assert SharedRange(after, before) == range;
    var p := WindowDensity(before, range.0, range.1, bins);
    var q := WindowDensity(after, range.0, range.1, bins);
    AdjRateSymmetric(p.density, q.density, dt, CentreGap(p.edges), sqrt);
  }

  /** A window paired with itself has rate zero. */
  lemma PairRateSame(xs: seq<real>, bins: int, dt: real, sqrt: real -> real)
    requires |xs| > 0 && bins >= 2 && dt != 0.0
    ensures PairRate(xs, xs, bins, dt, sqrt) == 0.0
  {
  }

  /** When the step succeeds: a bin count of at least two from the rule,
      both window indices inside the T windows, a non-empty window, a time
      column to read, and two distinct time stamps. */
  ghost predicate AdjDefined(data: Array3, time: Array2, i: int, spec: BinSpec)
    requires data.Valid() && time.Valid() && data.t == time.rows
  {
    var bins := RuleCount(spec, data.n * data.w);
    && bins.Ok? && bins.value >= 2
    && -(data.t as int) <= i && i + 1 < data.t
    && data.n * data.w > 0 && time.cols >= 1
    && time.at[PyIndex(i + 1, data.t).value][0] != time.at[PyIndex(i, data.t).value][0]
  }

  /** The step once both windows are cut: their histograms, the time step
      between the two stamps (none without a time column) and the rate, with
      the earlier window's stamp. */
  function WindowStep(before: seq<real>, after: seq<real>, bins: int, stamps: Option<(real, real)>, sqrt: real -> real): (r: Result<Option<RateAt>>)
    requires |before| > 0 && |after| > 0
    ensures r.Ok? <==> bins >= 2 && stamps.Some? && stamps.value.1 != stamps.value.0
    ensures bins < 1 ==> r == Err(NonPositiveBins)
    ensures r.Ok? ==> r.value == Some(RateAt(PairRate(before, after, bins, stamps.value.1 - stamps.value.0, sqrt), stamps.value.0))
  {
    if bins < 1 then Err(NonPositiveBins)
    else
    var range := SharedRange(before, after);
    var p := WindowDensity(before, range.0, range.1, bins);
    var q := WindowDensity(after, range.0, range.1, bins);
    if Centres(p.edges) != Centres(q.edges) then Ok(None)
    else if stamps.None? || bins < 2 then Err(IndexOutOfRange)
    else if stamps.value.1 == stamps.value.0 then Err(NotFinite)
    else Ok(Some(RateAt(PairRate(before, after, bins, stamps.value.1 - stamps.value.0, sqrt), stamps.value.0)))
  }

  /** `adj_collect_inforate_square`: the bin count from the rule, the two
      windows, their histograms over the shared range, then the rate and the
      earlier window's time stamp. numpy fails, in this order, on an infinite
      Sturges count (no samples), an index outside the windows, an empty
      window, a bin count below one, a missing time column or fewer than two
      bins (no centre gap), and a zero time step. The "ranges differ" branch
      of the source cannot be reached: the result is never `None`. */
  function AdjCollectRate(data: Array3, time: Array2, i: int, spec: BinSpec, sqrt: real -> real): (r: Result<Option<RateAt>>)
    requires data.Valid() && time.Valid() && data.t == time.rows
    ensures r.Ok? <==> AdjDefined(data, time, i, spec)
    ensures RuleCount(spec, data.n * data.w).Err? ==> r == Err(InfiniteBinCount)
    ensures RuleCount(spec, data.n * data.w).Ok? && !(-(data.t as int) <= i < data.t) ==> r == Err(IndexOutOfRange)
    ensures RuleCount(spec, data.n * data.w).Ok? && -(data.t as int) <= i < data.t && data.n * data.w == 0 ==> r == Err(EmptyArray)
    ensures r.Ok? ==>
      var a := PyIndex(i, data.t).value;
      var b := PyIndex(i + 1, data.t).value;
      && r == WindowStep(data.Window(a), data.Window(b), RuleCount(spec, data.n * data.w).value, time.Stamps(a, b), sqrt)
      && r.value.Some? && r.value.value.rate >= 0.0 && r.value.value.time == time.at[a][0]
  {
    var bins :- RuleCount(spec, data.n * data.w);
    var a :- PyIndex(i, data.t);
    if data.n * data.w == 0 then Err(EmptyArray)
    else
      var b :- PyIndex(i + 1, data.t);
      WindowStep(data.Window(a), data.Window(b), bins, time.Stamps(a, b), sqrt)
  }

  /** Two identical windows in a row give a rate of zero. */
  lemma AdjCollectRepeat(data: Array3, time: Array2, i: int, spec: BinSpec, sqrt: real -> real)
    requires data.Valid() && time.Valid() && data.t == time.rows
    requires AdjDefined(data, time, i, spec)
    requires data.Window(PyIndex(i, data.t).value) == data.Window(PyIndex(i + 1, data.t).value)
    ensures AdjCollectRate(data, time, i, spec, sqrt).value.value.rate == 0.0
  {
    var a := PyIndex(i, data.t).value;
    var b := PyIndex(i + 1, data.t).value;
    PairRateSame(data.Window(a), RuleCount(spec, data.n * data.w).value, time.at[b][0] - time.at[a][0], sqrt);
  }
}
