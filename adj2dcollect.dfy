/** One step of the adjacent-window information rate of a joint distribution,
    `adj2d_collect_inforate_square(data1, data2, time, i, bins_size)`.

    The samples of window i of `data1` are paired, position by position, with
    those of window i of `data2`; the pairs of windows i and i + 1 are
    histogrammed in two dimensions over per-axis shared ranges, and the rate
    between them is the adjacent form of the 2-D functional with cell area
    dx1 x dx2. When the two arrays differ in shape, each is first repeated
    along its signal axis as many times as the other has signals. */
module Adj2dCollect {
  import opened Common
  import opened Binning
  import opened Histogram
  import opened InfoRate
  import opened AdjCollect

  /** `reps` copies of `s` one after another: the first copy is `s` and
      every entry repeats `|s|` places later. */
  function Repeat<T>(s: seq<T>, reps: nat): (r: seq<T>)
    ensures |r| == reps * |s|
    ensures reps > 0 ==> r[..|s|] == s
    ensures forall c :: 0 <= c < |r| - |s| ==> r[c + |s|] == r[c]
  {
    if reps == 0 then []
    else
      var rest := Repeat(s, reps - 1);
      assert forall c :: 0 <= c < |rest| ==> (s + rest)[c + |s|] == (s + rest)[c] by {
        forall c | 0 <= c < |rest| ensures (s + rest)[c + |s|] == (s + rest)[c] {
          if c >= |s| {
            assert rest[c] == rest[c - |s|];
          }
        }
      }
      s + rest
  }

  /** `np.tile(a, (reps, 1, 1))`: the signals of `a` repeated `reps` times. */
  function Tile(a: Array3, reps: nat): (r: Array3)
    requires a.Valid()
    ensures r.Valid() && r.n == reps * a.n && r.t == a.t && r.w == a.w
    ensures reps > 0 ==> r.at[..a.n] == a.at
    ensures forall c :: 0 <= c < r.n - a.n ==> r.at[c + a.n] == r.at[c]
  {
    TileValid(a, reps);
    Array3(reps * a.n, a.t, a.w, Repeat(a.at, reps))
  }

  /** The repeated signals keep the shape of the original ones. */
  lemma TileValid(a: Array3, reps: nat)
    requires a.Valid()
    ensures Array3(reps * a.n, a.t, a.w, Repeat(a.at, reps)).Valid()
  {
    var r := Array3(reps * a.n, a.t, a.w, Repeat(a.at, reps));
    forall c | 0 <= c < r.n ensures |r.at[c]| == r.t && forall i :: 0 <= i < r.t ==> |r.at[c][i]| == r.w {
      TiledSignal(a.at, reps, c);
    }
  }

  /** Every entry of a repetition is an entry of the original. */
  lemma {:induction false} TiledSignal<T>(s: seq<T>, reps: nat, c: nat)
    requires c < reps * |s|
    ensures Repeat(s, reps)[c] in s
  {
    if c < |s| {
      assert Repeat(s, reps)[c] == Repeat(s, reps)[..|s|][c];
    } else {
      TiledSignal(s, reps, c - |s|);
    }
  }

  /** The two arrays brought to the same number of signals: unchanged when
      their shapes agree, otherwise each tiled by the other's signal count. */
  function Matched(d1: Array3, d2: Array3): (r: (Array3, Array3))
    requires d1.Valid() && d2.Valid()
    ensures r.0.Valid() && r.1.Valid() && r.0.n == r.1.n
    ensures r.0.t == d1.t && r.1.t == d2.t && r.0.w == d1.w && r.1.w == d2.w
    ensures (d1.n, d1.t, d1.w) == (d2.n, d2.t, d2.w) ==> r == (d1, d2)
    ensures (d1.n, d1.t, d1.w) != (d2.n, d2.t, d2.w) ==> r.0.n == d1.n * d2.n
  {
    if (d1.n, d1.t, d1.w) != (d2.n, d2.t, d2.w) then (Tile(d1, d2.n), Tile(d2, d1.n)) else (d1, d2)
  }

  /** The 2-D density histogram of pairs over ranges holding all of them;
      numpy cannot fail on it once each axis has a bin. */
  function GridDensity(xs: seq<real>, ys: seq<real>, a1: real, z1: real, a2: real, z2: real, g: GridBins): (h: Hist2)
    requires |xs| == |ys| > 0 && a1 <= z1 && a2 <= z2 && AxisBins(g).0 >= 1 && AxisBins(g).1 >= 1
    requires forall x :: x in xs ==> a1 <= x <= z1
    requires forall y :: y in ys ==> a2 <= y <= z2
    ensures h.xedges == Edges(Outer(a1, z1).0, Outer(a1, z1).1, AxisBins(g).0)
    ensures h.yedges == Edges(Outer(a2, z2).0, Outer(a2, z2).1, AxisBins(g).1)
    ensures |h.density| == AxisBins(g).0 && forall a :: 0 <= a < |h.density| ==> |h.density[a]| == AxisBins(g).1
    ensures EvenlySpaced(h.xedges) && EvenlySpaced(h.yedges)
  {
    AllInRange2(xs, ys, Outer(a1, z1).0, Outer(a1, z1).1, Outer(a2, z2).0, Outer(a2, z2).1);
    EdgesEvenlySpaced(Outer(a1, z1).0, Outer(a1, z1).1, AxisBins(g).0);
    EdgesEvenlySpaced(Outer(a2, z2).0, Outer(a2, z2).1, AxisBins(g).1);
    Histogram2D(xs, ys, a1, z1, a2, z2, g).value
  }

  /** The joint histograms of the earlier pairs (x0, y0) and the later
      pairs (x1, y1), both over the per-axis ranges the two windows share, on
      the same grid. */
  function JointPair(x0: seq<real>, y0: seq<real>, x1: seq<real>, y1: seq<real>, g: GridBins): (hs: (Hist2, Hist2))
    requires |x0| == |y0| > 0 && |x1| == |y1| > 0 && AxisBins(g).0 >= 1 && AxisBins(g).1 >= 1
    ensures hs.0.xedges == hs.1.xedges && hs.0.yedges == hs.1.yedges
    ensures |hs.0.xedges| == AxisBins(g).0 + 1 && Increasing(hs.0.xedges) && EvenlySpaced(hs.0.xedges)
    ensures |hs.0.yedges| == AxisBins(g).1 + 1 && Increasing(hs.0.yedges) && EvenlySpaced(hs.0.yedges)
    ensures SameShape(hs.0.density, hs.1.density) && SameShape(hs.1.density, hs.0.density)
  {
    var r1 := SharedRange(x0, x1);
    var r2 := SharedRange(y0, y1);
    (GridDensity(x0, y0, r1.0, r1.1, r2.0, r2.1, g), GridDensity(x1, y1, r1.0, r1.1, r2.0, r2.1, g))
  }

  /** Swapping the windows swaps the histograms: the shared ranges do not
      depend on the order. */
  lemma JointPairSwap(x0: seq<real>, y0: seq<real>, x1: seq<real>, y1: seq<real>, g: GridBins)
    requires |x0| == |y0| > 0 && |x1| == |y1| > 0 && AxisBins(g).0 >= 1 && AxisBins(g).1 >= 1
    ensures JointPair(x1, y1, x0, y0, g) == (JointPair(x0, y0, x1, y1, g).1, JointPair(x0, y0, x1, y1, g).0)
  {
    assert SharedRange(x1, x0) == SharedRange(x0, x1);
    assert SharedRange(y1, y0) == SharedRange(y0, y1);
  }

  /** The rate from the pairs (x0, y0) of the earlier window to the pairs
      (x1, y1) of the later one, once at least two bins per axis and a
      non-zero time step are settled; it is never negative. */
  function PairRate2(x0: seq<real>, y0: seq<real>, x1: seq<real>, y1: seq<real>, g: GridBins, dt: real, sqrt: real -> real): (r: real)
    requires |x0| == |y0| > 0 && |x1| == |y1| > 0
    requires AxisBins(g).0 >= 2 && AxisBins(g).1 >= 2 && dt != 0.0
    ensures r >= 0.0
  {
    var hs := JointPair(x0, y0, x1, y1, g);
    var dx1 := CentreGap(hs.0.xedges);
    var dx2 := CentreGap(hs.0.yedges);
    AdjRate2NonNegative(hs.0.density, hs.1.density, dt, dx1, dx2, sqrt);
    AdjRate2(hs.0.density, hs.1.density, dt, dx1, dx2, sqrt)
  }

  /** The 2-D rate is zero exactly when the root densities of the two
      windows agree cell by cell. */
  lemma PairRate2Zero(x0: seq<real>, y0: seq<real>, x1: seq<real>, y1: seq<real>, g: GridBins, dt: real, sqrt: real -> real)
    requires |x0| == |y0| > 0 && |x1| == |y1| > 0
    requires AxisBins(g).0 >= 2 && AxisBins(g).1 >= 2 && dt != 0.0
    ensures var hs := JointPair(x0, y0, x1, y1, g);
      PairRate2(x0, y0, x1, y1, g, dt, sqrt) == 0.0 <==> RootsAgree2(hs.0.density, hs.1.density, sqrt)
  {
    var hs := JointPair(x0, y0, x1, y1, g);
    AdjRate2Zero(hs.0.density, hs.1.density, dt, CentreGap(hs.0.xedges), CentreGap(hs.0.yedges), sqrt);
  }

  /** The 2-D rate does not depend on which of the two windows comes first. */
  lemma PairRate2Symmetric(x0: seq<real>, y0: seq<real>, x1: seq<real>, y1: seq<real>, g: GridBins, dt: real, sqrt: real -> real)
    requires |x0| == |y0| > 0 && |x1| == |y1| > 0
    requires AxisBins(g).0 >= 2 && AxisBins(g).1 >= 2 && dt != 0.0
    ensures PairRate2(x0, y0, x1, y1, g, dt, sqrt) == PairRate2(x1, y1, x0, y0, g, dt, sqrt)
  {
    var hs := JointPair(x0, y0, x1, y1, g);
    JointPairSwap(x0, y0, x1, y1, g);
    AdjRate2Symmetric(hs.0.density, hs.1.density, dt, CentreGap(hs.0.xedges), CentreGap(hs.0.yedges), sqrt);
  }

  /** The step once the four windows are cut and pair up: the joint
      histograms, the two centre checks, the time step between the two stamps
      (none without a time column), the cell sides and the rate, with the
      earlier window's stamp. */
  function GridStep(x0: seq<real>, y0: seq<real>, x1: seq<real>, y1: seq<real>, g: GridBins,
                    stamps: Option<(real, real)>, sqrt: real -> real): (r: Result<Option<RateAt>>)
    requires |x0| == |y0| > 0 && |x1| == |y1| > 0
    ensures r.Ok? <==> AxisBins(g).0 >= 2 && AxisBins(g).1 >= 2 && stamps.Some? && stamps.value.1 != stamps.value.0
    ensures AxisBins(g).0 < 1 || AxisBins(g).1 < 1 ==> r == Err(NonPositiveBins)
    ensures r.Ok? ==> r == Ok(Some(RateAt(PairRate2(x0, y0, x1, y1, g, stamps.value.1 - stamps.value.0, sqrt), stamps.value.0)))
  {
    var bins := AxisBins(g);
    if bins.0 < 1 || bins.1 < 1 then Err(NonPositiveBins)
    else
    var hs := JointPair(x0, y0, x1, y1, g);
    if Centres(hs.0.xedges) != Centres(hs.1.xedges) then Ok(None)
    else if Centres(hs.0.yedges) != Centres(hs.1.yedges) then Ok(None)
    else if stamps.None? || bins.0 < 2 || bins.1 < 2 then Err(IndexOutOfRange)
    else if stamps.value.1 == stamps.value.0 then Err(NotFinite)
    else Ok(Some(RateAt(PairRate2(x0, y0, x1, y1, g, stamps.value.1 - stamps.value.0, sqrt), stamps.value.0)))
  }

  /** When the step succeeds: a grid from the rule with at least two bins
      per axis, both window indices inside the T windows, non-empty windows
      of the same width in both arrays, a time column to read, and two
      distinct time stamps. */
  ghost predicate Adj2dDefined(d1: Array3, d2: Array3, time: Array2, i: int, spec: GridSpec)
    requires d1.Valid() && d2.Valid() && time.Valid() && d1.t == time.rows && d2.t == time.rows
  {
    var g := GridRuleCount(spec, d1.n * d1.w + d2.n * d2.w);
    var m := Matched(d1, d2);
    && g.Ok? && AxisBins(g.value).0 >= 2 && AxisBins(g.value).1 >= 2
    && -(time.rows as int) <= i && i + 1 < time.rows
    && m.0.n > 0 && d1.w > 0 && d1.w == d2.w && time.cols >= 1
    && time.at[PyIndex(i + 1, time.rows).value][0] != time.at[PyIndex(i, time.rows).value][0]
  }

  /** `adj2d_collect_inforate_square`: the grid from the rule (on the
      untiled shapes), the four windows of the matched arrays, their joint
      histograms, then the rate and the earlier window's time stamp. numpy
      fails, in this order, on a Sturges grid over no samples (OverflowError), an
      index outside the windows, an empty window of either array, windows of
      different sizes, a bin count below one, a missing time column or fewer
      than two bins on an axis, and a zero time step. The "ranges differ"
      branches of the source cannot be reached. */
  function Adj2dCollectRate(d1: Array3, d2: Array3, time: Array2, i: int, spec: GridSpec, sqrt: real -> real): (r: Result<Option<RateAt>>)
    requires d1.Valid() && d2.Valid() && time.Valid() && d1.t == time.rows && d2.t == time.rows
    ensures r.Ok? <==> Adj2dDefined(d1, d2, time, i, spec)
    ensures GridRuleCount(spec, d1.n * d1.w + d2.n * d2.w).Err? ==> r == Err(InfiniteBinCount)
    ensures GridRuleCount(spec, d1.n * d1.w + d2.n * d2.w).Ok? && !(-(time.rows as int) <= i < time.rows) ==> r == Err(IndexOutOfRange)
    ensures r.Ok? ==>
      var m := Matched(d1, d2);
      var a := PyIndex(i, time.rows).value;
      var b := PyIndex(i + 1, time.rows).value;
      && r == GridStep(m.0.Window(a), m.1.Window(a), m.0.Window(b), m.1.Window(b),
                       GridRuleCount(spec, d1.n * d1.w + d2.n * d2.w).value, time.Stamps(a, b), sqrt)
      && r.value.Some? && r.value.value.rate >= 0.0 && r.value.value.time == time.at[a][0]
  {
    var m := Matched(d1, d2);
    var g :- GridRuleCount(spec, d1.n * d1.w + d2.n * d2.w);
    var a :- PyIndex(i, time.rows);
    if m.0.n == 0 || m.0.w == 0 then Err(EmptyArray)
    else
      var b :- PyIndex(i + 1, time.rows);
      if m.1.n == 0 || m.1.w == 0 then Err(EmptyArray)
      else if m.0.w != m.1.w then Err(LengthMismatch)
      else
        GridStep(m.0.Window(a), m.1.Window(a), m.0.Window(b), m.1.Window(b), g, time.Stamps(a, b), sqrt)
  }
}
