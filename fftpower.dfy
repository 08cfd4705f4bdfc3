/** `fft_power(fft_amp, fft_freq, freq_range)`: the power of every channel in
    a frequency band, from the magnitudes of its spectrum.

    The band is every index whose frequency lies in [low, high]; the source
    slices from the first such index up to, but not including, the last
    one, so the highest in-band frequency never contributes. The power of a
    channel is the sum of its squared magnitudes over that slice times the
    first frequency gap inside the slice. */
module FftPower {
  import opened Common
  import opened Histogram

  predicate InBand(f: real, low: real, high: real) {
    low <= f <= high
  }

  /** `np.where(low <= freq <= high)[0][0]`: the first in-band index; an
      IndexError when there is none. */
  function FirstInBand(freq: seq<real>, low: real, high: real): (r: Result<nat>)
    ensures r.Ok? <==> exists i :: 0 <= i < |freq| && InBand(freq[i], low, high)
    ensures r.Err? ==> r.error == IndexOutOfRange
    ensures r.Ok? ==> r.value < |freq| && InBand(freq[r.value], low, high)
    ensures r.Ok? ==> forall j :: 0 <= j < r.value ==> !InBand(freq[j], low, high)
  {
    if freq == [] then Err(IndexOutOfRange)
    else if InBand(freq[0], low, high) then Ok(0)
    else
      assert forall i :: 1 <= i < |freq| ==> freq[1..][i - 1] == freq[i];
      var r :- FirstInBand(freq[1..], low, high);
      Ok(r + 1)
  }

  /** `np.where(low <= freq <= high)[0][-1]`: the last in-band index. */
  function LastInBand(freq: seq<real>, low: real, high: real): (r: Result<nat>)
    ensures r.Ok? <==> exists i :: 0 <= i < |freq| && InBand(freq[i], low, high)
    ensures r.Err? ==> r.error == IndexOutOfRange
    ensures r.Ok? ==> r.value < |freq| && InBand(freq[r.value], low, high)
    ensures r.Ok? ==> forall j :: r.value < j < |freq| ==> !InBand(freq[j], low, high)
  {
    if freq == [] then Err(IndexOutOfRange)
    else if InBand(freq[|freq| - 1], low, high) then Ok(|freq| - 1)
    else
      assert forall i :: 0 <= i < |freq| - 1 ==> freq[..|freq| - 1][i] == freq[i];
      LastInBand(freq[..|freq| - 1], low, high)
  }

  /** When the power is defined: an in-band frequency, and at least two
      indices from the first in-band one up to the last (exclusive), so that
      the slice has a first gap. */
  ghost predicate PowerDefined(freq: seq<real>, low: real, high: real) {
    && (exists i :: 0 <= i < |freq| && InBand(freq[i], low, high))
    && LastInBand(freq, low, high).value - FirstInBand(freq, low, high).value >= 2
  }

  /** `np.diff(freq[first:last])[0]`: the first gap inside the slice. */
  function BandGap(freq: seq<real>, low: real, high: real): real
    requires PowerDefined(freq, low, high)
  {
    freq[FirstInBand(freq, low, high).value + 1] - freq[FirstInBand(freq, low, high).value]
  }

  /** `s**2`, entry by entry. */
  function Squares(s: seq<real>): (r: seq<real>)
    ensures |r| == |s| && forall k :: 0 <= k < |s| ==> r[k] == Sq(s[k]) && r[k] >= 0.0
  {
    seq(|s|, k requires 0 <= k < |s| => Sq(s[k]))
  }

  /** `fft_power`. The amplitudes have one row per channel, each as long as
      the frequency grid, and the range is given as low < high (both are
      asserted by the source). It fails with an IndexError when no frequency
      is in the band and when the slice has fewer than two entries. The
      result has one power per channel, in channel order, computed from the
      same slice and the same gap for every channel. */
  function BandPower(amp: seq<seq<real>>, freq: seq<real>, low: real, high: real): (r: Result<seq<real>>)
    requires forall n :: 0 <= n < |amp| ==> |amp[n]| == |freq|
    requires low < high
    ensures r.Ok? <==> PowerDefined(freq, low, high)
    ensures r.Err? ==> r.error == IndexOutOfRange
    ensures r.Ok? ==> |r.value| == |amp|
    ensures r.Ok? ==> forall n :: 0 <= n < |amp| ==>
      r.value[n] == Times(Sum(Squares(amp[n][FirstInBand(freq, low, high).value..LastInBand(freq, low, high).value])), BandGap(freq, low, high))
  {
    var first :- FirstInBand(freq, low, high);
    var last :- LastInBand(freq, low, high);
    if last - first < 2 then Err(IndexOutOfRange)
    else Ok(seq(|amp|, n requires 0 <= n < |amp| => Times(Sum(Squares(amp[n][first..last])), BandGap(freq, low, high))))
  }

  /** On an increasing grid every power is non-negative. */
  lemma BandPowerNonNegative(amp: seq<seq<real>>, freq: seq<real>, low: real, high: real)
    requires forall n :: 0 <= n < |amp| ==> |amp[n]| == |freq|
    requires low < high && Increasing(freq) && PowerDefined(freq, low, high)
    ensures forall n :: 0 <= n < |amp| ==> BandPower(amp, freq, low, high).value[n] >= 0.0
  {
    var first, last := FirstInBand(freq, low, high).value, LastInBand(freq, low, high).value;
    forall n | 0 <= n < |amp| ensures BandPower(amp, freq, low, high).value[n] >= 0.0 {
      SumNonNegative(Squares(amp[n][first..last]));
      TimesNonNegative(Sum(Squares(amp[n][first..last])), BandGap(freq, low, high));
    }
  }

  /** The squared magnitudes of the in-band indices other than `top`, with a
      zero in every other place. */
  function BandTerms(a: seq<real>, freq: seq<real>, low: real, high: real, top: nat): (t: seq<real>)
    requires |a| == |freq|
    ensures |t| == |a|
    ensures forall k :: 0 <= k < |a| ==> t[k] == if InBand(freq[k], low, high) && k != top then Sq(a[k]) else 0.0
  {
    seq(|a|, k requires 0 <= k < |a| => if InBand(freq[k], low, high) && k != top then Sq(a[k]) else 0.0)
  }

  /** When the in-band indices are exactly first .. last, the band terms
      without `last` sum to the squares of the slice first .. last - 1. */
  lemma BandTermsSum(a: seq<real>, freq: seq<real>, low: real, high: real, first: nat, last: nat)
    requires |a| == |freq| && first <= last < |a|
    requires forall k :: 0 <= k < |a| ==> (InBand(freq[k], low, high) <==> first <= k <= last)
    ensures Sum(BandTerms(a, freq, low, high, last)) == Sum(Squares(a[first..last]))
  {
    var terms := BandTerms(a, freq, low, high, last);
    var z0, mid, z1 := Zeros(first), Squares(a[first..last]), Zeros(|a| - last);
    forall k | 0 <= k < |a| ensures terms[k] == (z0 + mid + z1)[k] {
      if k < first {
        assert (z0 + mid + z1)[k] == z0[k];
      } else if k < last {
        assert (z0 + mid + z1)[k] == mid[k - first];
      } else {
        assert (z0 + mid + z1)[k] == z1[k - last];
      }
    }
    assert terms == z0 + mid + z1;
    SumAppend(z0 + mid, z1);
    SumAppend(z0, mid);
  }

  /** On an increasing grid the in-band indices run without a gap from the
      first to the last. */
  lemma BandContiguous(freq: seq<real>, low: real, high: real)
    requires Increasing(freq) && exists i :: 0 <= i < |freq| && InBand(freq[i], low, high)
    ensures forall k :: 0 <= k < |freq| ==>
      (InBand(freq[k], low, high) <==> FirstInBand(freq, low, high).value <= k <= LastInBand(freq, low, high).value)
  {
    var first, last := FirstInBand(freq, low, high).value, LastInBand(freq, low, high).value;
    forall k | first <= k <= last ensures InBand(freq[k], low, high) {
      assert freq[first] <= freq[k] <= freq[last];
    }
  }

  /** So on an increasing grid each power is the sum of the squared
      magnitudes at every in-band frequency except the highest, times the
      first gap. */
  lemma BandPowerIsBandSum(amp: seq<seq<real>>, freq: seq<real>, low: real, high: real, n: nat)
    requires forall n :: 0 <= n < |amp| ==> |amp[n]| == |freq|
    requires low < high && Increasing(freq) && PowerDefined(freq, low, high) && n < |amp|
    ensures BandPower(amp, freq, low, high).value[n]
         == Times(Sum(BandTerms(amp[n], freq, low, high, LastInBand(freq, low, high).value)), BandGap(freq, low, high))
  {
    var first, last := FirstInBand(freq, low, high).value, LastInBand(freq, low, high).value;
    BandContiguous(freq, low, high);
    BandTermsSum(amp[n], freq, low, high, first, last);
  }

  /** The highest in-band frequency never contributes: magnitudes that
      differ only at that index give the same powers. */
  lemma TopBinIgnored(amp: seq<seq<real>>, amp': seq<seq<real>>, freq: seq<real>, low: real, high: real)
    requires forall n :: 0 <= n < |amp| ==> |amp[n]| == |freq|
    requires |amp'| == |amp| && forall n :: 0 <= n < |amp| ==> |amp'[n]| == |freq|
    requires low < high && PowerDefined(freq, low, high)
    requires forall n, k :: 0 <= n < |amp| && 0 <= k < |freq| && k != LastInBand(freq, low, high).value ==> amp'[n][k] == amp[n][k]
    ensures BandPower(amp', freq, low, high) == BandPower(amp, freq, low, high)
  {
    var first, last := FirstInBand(freq, low, high).value, LastInBand(freq, low, high).value;
    var r, r' := BandPower(amp, freq, low, high).value, BandPower(amp', freq, low, high).value;
    forall n | 0 <= n < |amp| ensures r'[n] == r[n] {
      assert amp'[n][first..last] == amp[n][first..last];
    }
    assert r' == r;
  }
}
