/** `fix_collect_inforate_square(data, time_data, int_range, int_bins)`: the
    fixed-range rate series of C channels pooled together. For every one of
    the T windows the C x W samples of all channels are pooled into one
    vector, the bin count comes from `int_bins` on that vector's length, and
    the series of the pooled densities is formed as for a single signal.

    The source turns a single number r given as `int_range` into the range
    (r, -r), which numpy rejects for every positive r; the model records that
    reading in `RangeAsWritten` and uses the symmetric (-r, r) of the single
    signal variant in `RangeOf`. */
module FixCollect {
  import opened Common
  import opened Binning
  import opened Histogram
  import opened FixRange
  import opened FixSingle

  /** `int_range`: a pair of bounds (a tuple or list) or a single number. */
  datatype RangeSpec = Bounds(first: real, second: real) | Scalar(r: real)

  /** The histogram range as the source builds it: a pair is used in the
      order given, and a single number r becomes (r, -r), so that every
      positive r yields a range whose minimum exceeds its maximum. */
  function RangeAsWritten(spec: RangeSpec): (range: (real, real))
    ensures spec.Bounds? ==> range == (spec.first, spec.second)
    ensures spec.Scalar? ==> (range.0 > range.1 <==> spec.r > 0.0) && range.0 + range.1 == 0.0
  {
    match spec
    case Bounds(a, b) => (a, b)
    case Scalar(r) => (r, -r)
  }

  /** The histogram range as intended: a pair in the order given, and a
      single number r the symmetric range (-r, r), inverted only for a
      negative r. */
  function RangeOf(spec: RangeSpec): (range: (real, real))
    ensures spec.Bounds? ==> range == (spec.first, spec.second)
    ensures spec.Scalar? ==> (range.0 <= range.1 <==> spec.r >= 0.0) && range.0 + range.1 == 0.0 && range.1 == spec.r
  {
    match spec
    case Bounds(a, b) => (a, b)
    case Scalar(r) => (-r, r)
  }

  /** The samples regrouped by sample index, [j][t][c]: sample j of channel
      c in window t. numpy's `np.transpose(data, (1, 2, 0))` is [t][j][c];
      this is that layout with its first two axes swapped, and `PooledRows`
      flattens it into the reshape's row order. */
  function BySample(data: Array3): (b: seq<seq<seq<real>>>)
    requires data.Valid()
    ensures |b| == data.w
    ensures forall j :: 0 <= j < data.w ==> |b[j]| == data.t && forall t :: 0 <= t < data.t ==> |b[j][t]| == data.n
    ensures forall j, t, c :: 0 <= j < data.w && 0 <= t < data.t && 0 <= c < data.n ==> b[j][t][c] == data.at[c][t][j]
  {
    seq(data.w, j requires 0 <= j < data.w =>
      seq(data.t, t requires 0 <= t < data.t =>
        seq(data.n, c requires 0 <= c < data.n => data.at[c][t][j])))
  }

  /** The rows of `np.reshape(np.transpose(data, (1, 2, 0)), (T, W * C))`:
      row t is the C channels' first sample of window t, then their second
      sample, and so on. */
  function PooledRows(data: Array3): (rows: seq<seq<real>>)
    requires data.Valid()
    ensures |rows| == data.t
    ensures forall t :: 0 <= t < data.t ==> rows[t] == FlattenRows(BySample(data), t, data.n)
  {
    seq(data.t, t requires 0 <= t < data.t => FlattenRows(BySample(data), t, data.n))
  }

  /** Pooled row t holds W * C samples, and exactly the samples of window t
      of all channels. */
  lemma PooledMembers(data: Array3, t: nat)
    requires data.Valid() && t < data.t
    ensures |PooledRows(data)[t]| == data.w * data.n
    ensures forall x :: x in PooledRows(data)[t] <==> exists c, j :: 0 <= c < data.n && 0 <= j < data.w && data.at[c][t][j] == x
  {
    var b := BySample(data);
    var row := PooledRows(data)[t];
    assert row == FlattenRows(b, t, data.n);
    FlattenRowsMembers(b, t, data.n);
    forall x ensures x in row <==> exists c, j :: 0 <= c < data.n && 0 <= j < data.w && data.at[c][t][j] == x {
      if x in row {
        var k, i :| 0 <= k < |b| && 0 <= i < data.n && b[k][t][i] == x;
        assert data.at[i][t][k] == x;
      }
      if exists c, j :: 0 <= c < data.n && 0 <= j < data.w && data.at[c][t][j] == x {
        var c, j :| 0 <= c < data.n && 0 <= j < data.w && data.at[c][t][j] == x;
        assert b[j][t][c] == x;
      }
    }
  }

  /** Flattening blocks of one sample each gives back those samples in order. */
  lemma {:induction false} FlattenSingletons(blocks: seq<seq<seq<real>>>, t: nat, v: seq<real>)
    requires |blocks| == |v|
    requires forall j :: 0 <= j < |blocks| ==> t < |blocks[j]| && blocks[j][t] == [v[j]]
    ensures FlattenRows(blocks, t, 1) == v
  {
    if blocks != [] {
      FlattenSingletons(blocks[1..], t, v[1..]);
    }
  }

  /** When the collective series is defined: a bin count from the rule and
      a defined series over the pooled windows. */
  ghost predicate CollectDefined(data: Array3, time: Array2, a: real, b: real, spec: BinSpec)
    requires data.Valid() && time.Valid() && data.t == time.rows
  {
    && RuleCount(spec, data.n * data.w).Ok?
    && SeriesDefined(PooledRows(data), a, b, RuleCount(spec, data.n * data.w).value, time)
  }

  /** The collective series with numpy's range argument (a, b). numpy fails
      first on no window at all (`apply_along_axis`), then on an infinite
      Sturges count (no samples), then as the fixed-range series does. */
  function CollectSeries(data: Array3, time: Array2, a: real, b: real, spec: BinSpec, sqrt: real -> real): (r: Result<Series>)
    requires data.Valid() && time.Valid() && data.t == time.rows
    ensures r.Ok? <==> CollectDefined(data, time, a, b, spec)
    ensures data.t == 0 ==> r == Err(EmptyArray)
    ensures data.t > 0 && RuleCount(spec, data.n * data.w).Err? ==> r == Err(InfiniteBinCount)
    ensures r.Ok? ==>
      && r.value.rates == SeriesRates(PooledRows(data), a, b, RuleCount(spec, data.n * data.w).value, time, sqrt)
      && r.value.times == LeadingStamps(time)
  {
    if data.t == 0 then Err(EmptyArray)
    else
      var bins :- RuleCount(spec, data.n * data.w);
      FixSeries(PooledRows(data), a, b, bins, time, sqrt)
  }

  /** `fix_collect_inforate_square` as written: a positive single-number
      range is turned into an inverted one. */
  function FixCollectRateAsWritten(data: Array3, time: Array2, range: RangeSpec, spec: BinSpec, sqrt: real -> real): (r: Result<Series>)
    requires data.Valid() && time.Valid() && data.t == time.rows
    ensures r.Ok? <==> CollectDefined(data, time, RangeAsWritten(range).0, RangeAsWritten(range).1, spec)
  {
    CollectSeries(data, time, RangeAsWritten(range).0, RangeAsWritten(range).1, spec, sqrt)
  }

  /** As written, every positive single-number range, the default 1.05
      included, fails as soon as there is a window and a bin. */
  lemma AsWrittenRejectsPositiveScalar(data: Array3, time: Array2, r: real, spec: BinSpec, sqrt: real -> real)
    requires data.Valid() && time.Valid() && data.t == time.rows
    requires data.t > 0 && r > 0.0 && RuleCount(spec, data.n * data.w).Ok? && RuleCount(spec, data.n * data.w).value >= 1
    ensures FixCollectRateAsWritten(data, time, Scalar(r), spec, sqrt) == Err(InvertedRange)
  {
    var bins := RuleCount(spec, data.n * data.w).value;
    assert CollectSeries(data, time, r, -r, spec, sqrt) == FixSeries(PooledRows(data), r, -r, bins, time, sqrt);
  }

  /** `fix_collect_inforate_square` with the symmetric reading of a
      single-number range. */
  function FixCollectRate(data: Array3, time: Array2, range: RangeSpec, spec: BinSpec, sqrt: real -> real): (r: Result<Series>)
    requires data.Valid() && time.Valid() && data.t == time.rows
    ensures r.Ok? <==> CollectDefined(data, time, RangeOf(range).0, RangeOf(range).1, spec)
    ensures r.Ok? ==>
      && r.value.rates == SeriesRates(PooledRows(data), RangeOf(range).0, RangeOf(range).1, RuleCount(spec, data.n * data.w).value, time, sqrt)
      && r.value.times == LeadingStamps(time)
  {
    CollectSeries(data, time, RangeOf(range).0, RangeOf(range).1, spec, sqrt)
  }

  /** With one channel the pooled rows are that channel's windows. */
  lemma PooledOneChannel(data: Array3)
    requires data.Valid() && data.n == 1
    ensures PooledRows(data) == data.at[0]
  {
    var rows := PooledRows(data);
    var b := BySample(data);
    forall t | 0 <= t < data.t ensures rows[t] == data.at[0][t] {
      forall j | 0 <= j < |b| ensures b[j][t] == [data.at[0][t][j]] {
        assert b[j][t][0] == data.at[0][t][j];
      }
      FlattenSingletons(b, t, data.at[0][t]);
    }
  }

  /** With one channel, a single-number range and a fixed bin count the
      collective series is the single-signal series of that channel. */
  lemma OneChannelIsFixSingle(data: Array3, time: Array2, r: real, bins: int, sqrt: real -> real)
    requires data.Valid() && time.Valid() && data.t == time.rows && data.n == 1
    ensures Array2(data.t, data.w, data.at[0]).Valid()
    ensures FixCollectRate(data, time, Scalar(r), Count(bins), sqrt) == FixSingleRate(Array2(data.t, data.w, data.at[0]), time, bins, r, sqrt)
  {
    PooledOneChannel(data);
    var single := FixSeries(data.at[0], -r, r, bins, time, sqrt);
    assert FixSingleRate(Array2(data.t, data.w, data.at[0]), time, bins, r, sqrt) == single;
    assert RangeOf(Scalar(r)) == (-r, r);
    var pooled := CollectSeries(data, time, -r, r, Count(bins), sqrt);
    assert FixCollectRate(data, time, Scalar(r), Count(bins), sqrt) == pooled;
    if data.t == 0 {
      assert single == Err(EmptyArray);
    } else {
      assert pooled == single;
    }
  }

  /** Every entry of the collective series is non-negative, and entry t is
      zero exactly when the root densities of pooled windows t and t + 1
      agree bin by bin. */
  lemma FixCollectRateFacts(data: Array3, time: Array2, range: RangeSpec, spec: BinSpec, sqrt: real -> real, t: nat)
    requires data.Valid() && time.Valid() && data.t == time.rows
    requires CollectDefined(data, time, RangeOf(range).0, RangeOf(range).1, spec) && t < data.t - 1
    ensures var (a, b) := RangeOf(range);
      var bins := RuleCount(spec, data.n * data.w).value;
      var ps := Densities(PooledRows(data), Outer(a, b).0, Outer(a, b).1, bins).value;
      && FixCollectRate(data, time, range, spec, sqrt).value.rates[t] >= 0.0
      && (FixCollectRate(data, time, range, spec, sqrt).value.rates[t] == 0.0 <==> SameRoots(ps[t], ps[t + 1], bins, sqrt))
  {
    var (a, b) := RangeOf(range);
    SeriesRatesFacts(PooledRows(data), a, b, RuleCount(spec, data.n * data.w).value, time, sqrt, t);
  }
}
