/** `fix2d_phase_inforate_shannon_entro(sig1, sig2, time, win, sld, bins,
    int_range, entro_bins, base, norm)`: the Shannon entropy of the
    fixed-range 2-D information rate of the phase angles of two signals.

    The source takes the instantaneous phase of each signal from its
    analytic signal (`hilbert`, `angle`, `unwrap`); here those unwrapped
    phases are the inputs, and the cosine is a parameter. The cosines of
    the phases and the time axis are cut into the same sliding windows,
    each windowed signal becomes a one-channel ensemble, the fixed-range
    2-D rate series is computed over them, and the rates are summarised by
    the entropy of the pmf of their square roots. */
module Fix2dPhaseShannon {
  import opened Common
  import opened Binning
  import opened Histogram
  import opened Windowing
  import opened FixRange
  import opened FixDouble
  import opened Entropy

  /** The rate series: `fix_double_inforate_square` over the windows of the
      two phase-angle series as one-channel ensembles, with `int_bins=bins`
      and the given range. The three series have one length (the source
      asserts it); a bad window or step is a ValueError. */
  function PhaseSeries(phase1: seq<real>, phase2: seq<real>, time: seq<real>, win: int, sld: int,
                       bins: int, range: HalfWidths, cos: real -> real, sqrt: real -> real): (r: Result<Series>)
    requires |phase1| == |time| && |phase2| == |time|
    ensures !(0 <= win <= |time| && sld != 0) ==> r == Err(BadWindow)
    ensures r.Ok? ==> 0 <= win <= |time| && sld != 0
    ensures r.Ok? ==>
      && r == FixDoubleRate(SignalWindows(Apply(phase1, cos), win, sld), SignalWindows(Apply(phase2, cos), win, sld),
                            TimeWindows(time, win, sld), Same(bins), range, sqrt)
      && |r.value.rates| == KeptCount(|time| - win + 1, sld) - 1 && |r.value.times| == |r.value.rates|
  {
    var _ :- Windows(time, win, sld);
    var tm := TimeWindows(time, win, sld);
    var r := FixDoubleRate(SignalWindows(Apply(phase1, cos), win, sld), SignalWindows(Apply(phase2, cos), win, sld),
                           tm, Same(bins), range, sqrt);
    r
  }

  /** With a forward step, rate t is never negative and is stamped with the
      first time of window t, which starts at sample t x sld. */
  lemma PhaseSeriesRows(phase1: seq<real>, phase2: seq<real>, time: seq<real>, win: int, sld: int,
                        bins: int, range: HalfWidths, cos: real -> real, sqrt: real -> real)
    requires |phase1| == |time| && |phase2| == |time| && sld > 0
    requires PhaseSeries(phase1, phase2, time, win, sld, bins, range, cos, sqrt).Ok?
    ensures var s := PhaseSeries(phase1, phase2, time, win, sld, bins, range, cos, sqrt).value;
      forall t :: 0 <= t < |s.rates| ==> s.rates[t] >= 0.0 && t * sld < |time| && s.times[t] == time[t * sld]
  {
    var s := PhaseSeries(phase1, phase2, time, win, sld, bins, range, cos, sqrt).value;
    var d1, d2, tm := SignalWindows(Apply(phase1, cos), win, sld), SignalWindows(Apply(phase2, cos), win, sld),
                      TimeWindows(time, win, sld);
    forall t | 0 <= t < |s.rates| ensures s.rates[t] >= 0.0 && t * sld < |time| && s.times[t] == time[t * sld] {
      TimeWindowStart(time, win, sld, t);
    }
  }

  /** `fix2d_phase_inforate_shannon_entro`: the rate series and its
      summary. The data table holds the rates with their time stamps, and
      the pmf table the pmf of the square roots of the rates with the bin
      centres. */
  function Fix2dPhaseShannon(phase1: seq<real>, phase2: seq<real>, time: seq<real>, win: int, sld: int,
                             bins: int, range: HalfWidths, entroBins: int, base: real, norm: bool,
                             cos: real -> real, sqrt: real -> real, log: real -> real): (r: Result<ShannonOutput>)
    requires |phase1| == |time| && |phase2| == |time|
    ensures PhaseSeries(phase1, phase2, time, win, sld, bins, range, cos, sqrt).Err? ==>
      r == Err(PhaseSeries(phase1, phase2, time, win, sld, bins, range, cos, sqrt).error)
    ensures r.Ok? ==>
      && PhaseSeries(phase1, phase2, time, win, sld, bins, range, cos, sqrt).Ok?
      && Firsts(r.value.data) == PhaseSeries(phase1, phase2, time, win, sld, bins, range, cos, sqrt).value.rates
      && Seconds(r.value.data) == PhaseSeries(phase1, phase2, time, win, sld, bins, range, cos, sqrt).value.times
      && Summarise(Firsts(r.value.data), entroBins, base, norm, sqrt, log)
         == Ok(Summary(r.value.entropy, Firsts(r.value.pmf), Seconds(r.value.pmf)))
  {
    var series :- PhaseSeries(phase1, phase2, time, win, sld, bins, range, cos, sqrt);
    var s :- Summarise(series.rates, entroBins, base, norm, sqrt, log);
    Ok(Output(series, s))
  }

  /** The pmf column of the output is a pmf over the entro_bins bins, and
      in a base above one the entropy is never negative. */
  lemma Fix2dPhaseShannonSummary(phase1: seq<real>, phase2: seq<real>, time: seq<real>, win: int, sld: int,
                                 bins: int, range: HalfWidths, entroBins: int, base: real, norm: bool,
                                 cos: real -> real, sqrt: real -> real, log: real -> real)
    requires |phase1| == |time| && |phase2| == |time|
    requires Fix2dPhaseShannon(phase1, phase2, time, win, sld, bins, range, entroBins, base, norm, cos, sqrt, log).Ok?
    ensures var o := Fix2dPhaseShannon(phase1, phase2, time, win, sld, bins, range, entroBins, base, norm, cos, sqrt, log).value;
      && IsPmf(Firsts(o.pmf)) && |o.pmf| == entroBins
      && (LogLike(log) && base > 1.0 ==> o.entropy >= 0.0)
  {
    var o := Fix2dPhaseShannon(phase1, phase2, time, win, sld, bins, range, entroBins, base, norm, cos, sqrt, log).value;
    var s := Summarise(Firsts(o.data), entroBins, base, norm, sqrt, log).value;
    if LogLike(log) && base > 1.0 {
      EntropyNonNegative(s.pmf, base, norm, log);
    }
  }
}
