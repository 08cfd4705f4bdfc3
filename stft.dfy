/** `inforate_square_stft(int_signal, int_time, win_size, overlap, int_freq_range)`:
    an information-rate series read off a short-time Fourier spectrum.

    The transform itself is not modelled: its output (the frequency grid, the
    segment times and the magnitudes |Z|, one row per frequency and one column
    per segment) is the input here. The band is the rows from the last
    frequency at most min(range) up to, but not including, the last frequency
    at most max(range). Every column of the band is normalised to a pmf and
    divided by the first frequency gap to give a pdf; the rate between
    columns t and t + 1 is then formed with the first time gap. The source
    sums the root differences over the band BEFORE squaring
    (`StftRateAsWritten`); the functional of every other driver squares each
    difference first (`StftRate`). */
module Stft {
  import opened Common
  import opened Histogram
  import opened InfoRate
  import opened FixRange

  /** The transform's output: `freq[k]`, `times[t]` and `mag[k][t] = |Z[k, t]|`.
      Its frequency grid and segment times are strictly increasing. */
  datatype Spectrum = Spectrum(freq: seq<real>, times: seq<real>, mag: seq<seq<real>>) {
    ghost predicate Valid() {
      && |mag| == |freq|
      && (forall k :: 0 <= k < |mag| ==> |mag[k]| == |times|)
      && (forall k, t :: 0 <= k < |mag| && 0 <= t < |mag[k]| ==> mag[k][t] >= 0.0)
      && Increasing(freq) && Increasing(times)
    }
  }

  /** `np.where(s <= x)[0][-1]`: the last index whose entry is at most x; an
      IndexError when there is none. */
  function LastAtMost(s: seq<real>, x: real): (r: Result<nat>)
    ensures r.Ok? <==> exists i :: 0 <= i < |s| && s[i] <= x
    ensures r.Err? ==> r.error == IndexOutOfRange
    ensures r.Ok? ==> r.value < |s| && s[r.value] <= x && forall j :: r.value < j < |s| ==> s[j] > x
  {
    if s == [] then Err(IndexOutOfRange)
    else if s[|s| - 1] <= x then Ok(|s| - 1)
    else
      assert forall i :: 0 <= i < |s| - 1 ==> s[..|s| - 1][i] == s[i];
      LastAtMost(s[..|s| - 1], x)
  }

  /** The band (lo, hi) for the range pair (a, b): lo is the last index at
      most min(a, b) and hi the last at most max(a, b), so lo <= hi; it fails
      exactly when no frequency is at most min(a, b). */
  function Band(freq: seq<real>, a: real, b: real): (r: Result<(nat, nat)>)
    ensures r.Ok? <==> exists i :: 0 <= i < |freq| && freq[i] <= Min(a, b)
    ensures r.Err? ==> r.error == IndexOutOfRange
    ensures r.Ok? ==> r.value.0 <= r.value.1 < |freq|
    ensures r.Ok? ==> freq[r.value.0] <= Min(a, b) && forall j :: r.value.0 < j < |freq| ==> freq[j] > Min(a, b)
    ensures r.Ok? ==> freq[r.value.1] <= Max(a, b) && forall j :: r.value.1 < j < |freq| ==> freq[j] > Max(a, b)
  {
    var lo :- LastAtMost(freq, Min(a, b));
    var hi :- LastAtMost(freq, Max(a, b));
    Ok((lo, hi))
  }

  /** Column t of the band rows lo .. hi - 1 of the magnitudes; the row hi
      itself is left out. */
  function Column(s: Spectrum, lo: nat, hi: nat, t: nat): (c: seq<real>)
    requires s.Valid() && lo <= hi <= |s.freq| && t < |s.times|
    ensures |c| == hi - lo
    ensures forall k :: 0 <= k < hi - lo ==> c[k] == s.mag[lo + k][t] && c[k] >= 0.0
  {
    seq(hi - lo, k requires 0 <= k < hi - lo => s.mag[lo + k][t])
  }

  /** A column over its own total: a pmf whose entries are non-negative and
      sum to one (an empty band stays empty). */
  function ColumnPmf(c: seq<real>): (p: seq<real>)
    requires forall k :: 0 <= k < |c| ==> c[k] >= 0.0
    requires c == [] || Sum(c) != 0.0
    ensures |p| == |c|
    ensures forall k :: 0 <= k < |p| ==> p[k] >= 0.0
    ensures c != [] ==> Sum(p) == 1.0
  {
    if c == [] then []
    else
      SumNonNegative(c);
      SumScale(c, Sum(c));
      DivSelf(Sum(c));
      forall k | 0 <= k < |c| ensures c[k] / Sum(c) >= 0.0 {
        DivNonNegative(c[k], Sum(c));
      }
      Scale(c, Sum(c))
  }

  /** The pmf over the frequency gap df: a density whose entries times df sum
      to one. */
  function ColumnPdf(c: seq<real>, df: real): (p: seq<real>)
    requires forall k :: 0 <= k < |c| ==> c[k] >= 0.0
    requires c == [] || Sum(c) != 0.0
    requires df > 0.0
    ensures |p| == |c|
    ensures forall k :: 0 <= k < |p| ==> p[k] >= 0.0
    ensures c != [] ==> Times(Sum(p), df) == 1.0
  {
    var pmf := ColumnPmf(c);
    SumScale(pmf, df);
    forall k | 0 <= k < |pmf| ensures pmf[k] / df >= 0.0 {
      DivNonNegative(pmf[k], df);
    }
    Scale(pmf, df)
  }

  /** `np.diff(stft_freq)[0]`, positive on an increasing grid. */
  function FreqGap(s: Spectrum): (df: real)
    requires s.Valid() && |s.freq| >= 2
    ensures df > 0.0
  {
    s.freq[1] - s.freq[0]
  }

  /** `np.diff(stft_time)[0]`, positive on increasing segment times. */
  function TimeGap(s: Spectrum): (dt: real)
    requires s.Valid() && |s.times| >= 2
    ensures dt > 0.0
  {
    s.times[1] - s.times[0]
  }

  /** Every band column has a non-zero total, unless the band is empty (an
      empty band has nothing to divide). */
  predicate Normalisable(s: Spectrum, lo: nat, hi: nat)
    requires s.Valid() && lo <= hi <= |s.freq|
  {
    lo == hi || forall t :: 0 <= t < |s.times| ==> Sum(Column(s, lo, hi, t)) != 0.0
  }

  /** `pdf_stft`, column by column: the density of every segment over the band. */
  function Pdfs(s: Spectrum, lo: nat, hi: nat): (ps: seq<seq<real>>)
    requires s.Valid() && lo <= hi <= |s.freq| && |s.freq| >= 2 && Normalisable(s, lo, hi)
    ensures |ps| == |s.times| && AllOfLength(ps, hi - lo)
    ensures forall t :: 0 <= t < |ps| ==> forall k :: 0 <= k < hi - lo ==> ps[t][k] >= 0.0
    ensures lo < hi ==> forall t :: 0 <= t < |ps| ==> Times(Sum(ps[t]), FreqGap(s)) == 1.0
  {
    seq(|s.times|, t requires 0 <= t < |s.times| => ColumnPdf(Column(s, lo, hi, t), FreqGap(s)))
  }

  /** When the series is defined: a band, two frequencies and two segments
      to take the first gaps of, and no band column that sums to zero (0/0). */
  ghost predicate StftDefined(s: Spectrum, a: real, b: real)
    requires s.Valid()
  {
    && Band(s.freq, a, b).Ok? && |s.freq| >= 2 && |s.times| >= 2
    && Normalisable(s, Band(s.freq, a, b).value.0, Band(s.freq, a, b).value.1)
  }

  /** One entry as the source writes it, `4 * (sum_k diff)**2 * (df / dt**2)`:
      never negative, and zero exactly when the root sums of the two columns
      are equal. */
  function AsWrittenRate(p: seq<real>, q: seq<real>, dt: real, df: real, sqrt: real -> real): (r: real)
    requires |p| == |q| && dt != 0.0 && df > 0.0
    ensures r >= 0.0
    ensures r == 0.0 <==> GapSum(p, q, sqrt) == 0.0
  {
    var g := GapSum(p, q, sqrt);
    assert df / Sq(dt) > 0.0;
    TimesNonNegative(Sq(g), df / Sq(dt));
    TimesZero(Sq(g), df / Sq(dt));
    4.0 * Times(Sq(g), df / Sq(dt))
  }

  /** The as-written entries over consecutive columns: never negative, and
      entry t is zero exactly when the root sums of columns t and t + 1 are
      equal. */
  function AsWrittenSeries(ps: seq<seq<real>>, bins: nat, dt: real, df: real, sqrt: real -> real): (r: seq<real>)
    requires |ps| >= 1 && AllOfLength(ps, bins) && dt != 0.0 && df > 0.0
    ensures |r| == |ps| - 1
    ensures forall t :: 0 <= t < |r| ==> r[t] >= 0.0 && (r[t] == 0.0 <==> GapSum(ps[t], ps[t + 1], sqrt) == 0.0)
  {
    seq(|ps| - 1, t requires 0 <= t < |ps| - 1 => AsWrittenRate(ps[t], ps[t + 1], dt, df, sqrt))
  }

  /** The entries of the functional over consecutive columns: never
      negative, and entry t is zero exactly when the root densities of
      columns t and t + 1 agree bin by bin. */
  function FunctionalSeries(ps: seq<seq<real>>, bins: nat, dt: real, df: real, sqrt: real -> real): (r: seq<real>)
    requires |ps| >= 1 && AllOfLength(ps, bins) && dt != 0.0 && df > 0.0
    ensures |r| == |ps| - 1
    ensures forall t :: 0 <= t < |r| ==> r[t] >= 0.0 && (r[t] == 0.0 <==> SameRoots(ps[t], ps[t + 1], bins, sqrt))
  {
    RateSeriesFacts(ps, bins, dt, df, sqrt);
    RateSeries(ps, bins, dt, df, sqrt)
  }

  /** `inforate_square_stft` as written. It fails, in this order, when no
      frequency is at most min(range) (IndexError), when there are fewer than
      two frequencies or two segments (no first gap), and gives non-finite
      rates when a band column sums to zero. Entry t compares columns t and
      t + 1; the stamps are all segment times but the last. */
  function StftRateAsWritten(s: Spectrum, a: real, b: real, sqrt: real -> real): (r: Result<Series>)
    requires s.Valid()
    ensures r.Ok? <==> StftDefined(s, a, b)
    ensures Band(s.freq, a, b).Err? ==> r == Err(IndexOutOfRange)
    ensures Band(s.freq, a, b).Ok? && (|s.freq| < 2 || |s.times| < 2) ==> r == Err(IndexOutOfRange)
    ensures r.Ok? ==>
      && r.value.rates == AsWrittenSeries(Pdfs(s, Band(s.freq, a, b).value.0, Band(s.freq, a, b).value.1),
                                          Band(s.freq, a, b).value.1 - Band(s.freq, a, b).value.0, TimeGap(s), FreqGap(s), sqrt)
      && r.value.times == s.times[..|s.times| - 1]
  {
    var band :- Band(s.freq, a, b);
    if |s.freq| < 2 || |s.times| < 2 then Err(IndexOutOfRange)
    else if !Normalisable(s, band.0, band.1) then Err(NotFinite)
    else Ok(Series(AsWrittenSeries(Pdfs(s, band.0, band.1), band.1 - band.0, TimeGap(s), FreqGap(s), sqrt), s.times[..|s.times| - 1]))
  }

  /** The series with the information-rate functional of the other drivers:
      entry t is the fixed-form rate from column t to column t + 1 with bin
      width df. */
  function StftRate(s: Spectrum, a: real, b: real, sqrt: real -> real): (r: Result<Series>)
    requires s.Valid()
    ensures r.Ok? <==> StftDefined(s, a, b)
    ensures Band(s.freq, a, b).Err? ==> r == Err(IndexOutOfRange)
    ensures Band(s.freq, a, b).Ok? && (|s.freq| < 2 || |s.times| < 2) ==> r == Err(IndexOutOfRange)
    ensures r.Ok? ==>
      && r.value.rates == FunctionalSeries(Pdfs(s, Band(s.freq, a, b).value.0, Band(s.freq, a, b).value.1),
                                           Band(s.freq, a, b).value.1 - Band(s.freq, a, b).value.0, TimeGap(s), FreqGap(s), sqrt)
      && r.value.times == s.times[..|s.times| - 1]
  {
    var band :- Band(s.freq, a, b);
    if |s.freq| < 2 || |s.times| < 2 then Err(IndexOutOfRange)
    else if !Normalisable(s, band.0, band.1) then Err(NotFinite)
    else Ok(Series(FunctionalSeries(Pdfs(s, band.0, band.1), band.1 - band.0, TimeGap(s), FreqGap(s), sqrt), s.times[..|s.times| - 1]))
  }

  /** On a band of a single bin the two forms agree: squaring the sum of one
      difference is squaring that difference. */
  lemma OneBinAgrees(p: seq<real>, q: seq<real>, dt: real, df: real, sqrt: real -> real)
    requires |p| == |q| == 1 && dt != 0.0 && df > 0.0
    ensures AsWrittenRate(p, q, dt, df, sqrt) == FixRate(p, q, dt, df, sqrt)
  {
    assert GapSum(p, q, sqrt) == sqrt(q[0]) - sqrt(p[0]);
    assert SqGapSum(p, q, sqrt) == Sq(sqrt(q[0]) - sqrt(p[0]));
  }

  /** As written, a rate entry is blind to density moving between bins: when
      the two bins of a band swap their densities u and v from one column to
      the next, the as-written entry is zero, while the entry of the
      functional is zero only when u and v have the same root. */
  lemma AsWrittenMissesSwap(u: real, v: real, dt: real, df: real, sqrt: real -> real)
    requires dt != 0.0 && df > 0.0
    ensures AsWrittenRate([u, v], [v, u], dt, df, sqrt) == 0.0
    ensures FixRate([u, v], [v, u], dt, df, sqrt) == 0.0 <==> sqrt(u) == sqrt(v)
  {
    var p, q := [u, v], [v, u];
    assert GapSum(p, q, sqrt) == (sqrt(v) - sqrt(u)) + ((sqrt(u) - sqrt(v)) + 0.0) by {
      assert p[1..] == [v] && q[1..] == [u];
      assert GapSum([v], [u], sqrt) == (sqrt(u) - sqrt(v)) + GapSum([], [], sqrt);
    }
    FixRateZero(p, q, dt, df, sqrt);
  }
}
