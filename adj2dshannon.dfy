/** `adj2d_inforate_shannon_entro(sig1, sig2, time, win, sld, bins,
    entro_bins, base, norm)`: the Shannon entropy of the adjacent-window 2-D
    information rate of two signals.

    The two signals and the time axis are cut into the same sliding windows;
    each signal becomes a one-channel ensemble, and one rate is computed for
    every pair of neighbouring windows with the 2-D adjacent-window step,
    sig2 as the first ensemble and sig1 as the second. The rates are then
    summarised by the entropy of the pmf of their square roots. */
module Adj2dShannon {
  import opened Common
  import opened Binning
  import opened Windowing
  import opened InfoRate
  import opened Adj2dCollect
  import opened FixRange
  import opened Entropy

  /** The steps `adj2d_collect_inforate_square(d1, d2, time, i=t,
      bins_size=bins)` for t = 0 .. rows - 2, in that order. */
  function Steps(d1: Array3, d2: Array3, time: Array2, bins: int, sqrt: real -> real): (r: seq<Result<Option<RateAt>>>)
    requires d1.Valid() && d2.Valid() && time.Valid() && d1.t == time.rows && d2.t == time.rows && time.rows >= 1
    ensures |r| == time.rows - 1
    ensures forall t :: 0 <= t < |r| ==> r[t] == Adj2dCollectRate(d1, d2, time, t, Grid(Same(bins)), sqrt)
  {
    seq(time.rows - 1, t requires 0 <= t < time.rows - 1 => Adj2dCollectRate(d1, d2, time, t, Grid(Same(bins)), sqrt))
  }

  /** Collecting the results of the steps: the first step that raises
      decides the error. */
  function Gather(steps: seq<Result<Option<RateAt>>>): (r: Result<seq<Option<RateAt>>>)
    ensures r.Ok? <==> forall t :: 0 <= t < |steps| ==> steps[t].Ok?
    ensures r.Ok? ==> |r.value| == |steps| && forall t :: 0 <= t < |steps| ==> Ok(r.value[t]) == steps[t]
    ensures r.Err? ==> exists t :: 0 <= t < |steps| && steps[t] == Err(r.error) && forall u :: 0 <= u < t ==> steps[u].Ok?
  {
    if steps == [] then Ok([])
    else if steps[0].Err? then Err(steps[0].error)
    else
      var rest := Gather(steps[1..]);
      if rest.Err? then
        var t :| 0 <= t < |steps[1..]| && steps[1..][t] == Err(rest.error) && forall u :: 0 <= u < t ==> steps[1..][u].Ok?;
        assert steps[t + 1] == Err(rest.error) && forall u :: 0 <= u < t + 1 ==> steps[u].Ok?;
        Err(rest.error)
      else
        Ok([steps[0].value] + rest.value)
  }

  /** `zip(*results)` unpacked into rates and times: no result at all cannot
      be unpacked into two, and a missing result cannot be unzipped. */
  function Unzip(rs: seq<Option<RateAt>>): (r: Result<Series>)
    ensures r.Ok? <==> rs != [] && forall t :: 0 <= t < |rs| ==> rs[t].Some?
    ensures rs == [] ==> r == Err(EmptyArray)
    ensures rs != [] && r.Err? ==> r.error == MissingRate
    ensures r.Ok? ==> |r.value.rates| == |rs| && |r.value.times| == |rs|
    ensures r.Ok? ==> forall t :: 0 <= t < |rs| ==> rs[t] == Some(RateAt(r.value.rates[t], r.value.times[t]))
  {
    if rs == [] then Err(EmptyArray)
    else if exists t :: 0 <= t < |rs| && rs[t].None? then Err(MissingRate)
    else Ok(Series(seq(|rs|, t requires 0 <= t < |rs| => rs[t].value.rate),
                   seq(|rs|, t requires 0 <= t < |rs| => rs[t].value.time)))
  }

  /** The rate series of `adj2d_inforate_shannon_entro`. The three series
      have one length (the source asserts it). A bad window or step is a
      ValueError, a failing step is the error it raises, and a single window
      leaves nothing to unpack. There is one rate per pair of neighbouring
      windows, in window order: the 2-D step with sig2 first. */
  function Adj2dSeries(sig1: seq<real>, sig2: seq<real>, time: seq<real>, win: int, sld: int,
                       bins: int, sqrt: real -> real): (r: Result<Series>)
    requires |sig1| == |time| && |sig2| == |time|
    ensures !(0 <= win <= |time| && sld != 0) ==> r == Err(BadWindow)
    ensures r.Ok? ==> 0 <= win <= |time| && sld != 0
    ensures r.Ok? ==>
      && |r.value.rates| == KeptCount(|time| - win + 1, sld) - 1 && |r.value.times| == |r.value.rates|
      && forall t :: 0 <= t < |r.value.rates| ==>
           Adj2dCollectRate(SignalWindows(sig2, win, sld), SignalWindows(sig1, win, sld), TimeWindows(time, win, sld),
                            t, Grid(Same(bins)), sqrt)
           == Ok(Some(RateAt(r.value.rates[t], r.value.times[t])))
  {
    var _ :- Windows(time, win, sld);
    var rs :- Gather(Steps(SignalWindows(sig2, win, sld), SignalWindows(sig1, win, sld), TimeWindows(time, win, sld), bins, sqrt));
    Unzip(rs)
  }

  /** With a forward step, rate t is never negative and is stamped with the
      first time of window t, which starts at sample t x sld. */
  lemma {:induction false} Adj2dSeriesRows(sig1: seq<real>, sig2: seq<real>, time: seq<real>, win: int, sld: int,
                        bins: int, sqrt: real -> real)
    requires |sig1| == |time| && |sig2| == |time| && sld > 0
    requires Adj2dSeries(sig1, sig2, time, win, sld, bins, sqrt).Ok?
    ensures var s := Adj2dSeries(sig1, sig2, time, win, sld, bins, sqrt).value;
      forall t :: 0 <= t < |s.rates| ==> s.rates[t] >= 0.0 && t * sld < |time| && s.times[t] == time[t * sld]
  {
    var s := Adj2dSeries(sig1, sig2, time, win, sld, bins, sqrt).value;
    forall t | 0 <= t < |s.rates| ensures s.rates[t] >= 0.0 && t * sld < |time| && s.times[t] == time[t * sld] {
      RowStamp(sig1, sig2, time, win, sld, bins, sqrt, t, s.rates[t], s.times[t]);
    }
  }

  lemma {:induction false} RowStamp(sig1: seq<real>, sig2: seq<real>, time: seq<real>, win: int, sld: int,
                 bins: int, sqrt: real -> real, t: nat, rate: real, stamp: real)
    requires |sig1| == |time| && |sig2| == |time| && 0 <= win <= |time| && sld > 0
    requires t < KeptCount(|time| - win + 1, sld)
    requires Adj2dCollectRate(SignalWindows(sig2, win, sld), SignalWindows(sig1, win, sld), TimeWindows(time, win, sld),
                              t, Grid(Same(bins)), sqrt) == Ok(Some(RateAt(rate, stamp)))
    ensures rate >= 0.0 && t * sld < |time| && stamp == time[t * sld]
  {
    var d1, d2, tw := SignalWindows(sig2, win, sld), SignalWindows(sig1, win, sld), TimeWindows(time, win, sld);
    assert d1.Valid() && d2.Valid() && tw.Valid() && d1.t == tw.rows && d2.t == tw.rows;
    StepRow(d1, d2, tw, t, bins, sqrt, rate, stamp);
    assert win == tw.cols >= 1 && stamp == tw.at[t][0];
    TimeWindowStart(time, win, sld, t);
  }

  /** `adj2d_inforate_shannon_entro`: the rate series and its summary. The
      data table holds the rates with their time stamps, and the pmf table
      the pmf of the square roots of the rates with the bin centres. */
  function Adj2dShannon(sig1: seq<real>, sig2: seq<real>, time: seq<real>, win: int, sld: int,
                        bins: int, entroBins: int, base: real, norm: bool,
                        sqrt: real -> real, log: real -> real): (r: Result<ShannonOutput>)
    requires |sig1| == |time| && |sig2| == |time|
    ensures Adj2dSeries(sig1, sig2, time, win, sld, bins, sqrt).Err? ==>
      r == Err(Adj2dSeries(sig1, sig2, time, win, sld, bins, sqrt).error)
    ensures r.Ok? ==>
      && Adj2dSeries(sig1, sig2, time, win, sld, bins, sqrt).Ok?
      && Firsts(r.value.data) == Adj2dSeries(sig1, sig2, time, win, sld, bins, sqrt).value.rates
      && Seconds(r.value.data) == Adj2dSeries(sig1, sig2, time, win, sld, bins, sqrt).value.times
      && Summarise(Firsts(r.value.data), entroBins, base, norm, sqrt, log)
         == Ok(Summary(r.value.entropy, Firsts(r.value.pmf), Seconds(r.value.pmf)))
  {
    var series :- Adj2dSeries(sig1, sig2, time, win, sld, bins, sqrt);
    var s :- Summarise(series.rates, entroBins, base, norm, sqrt, log);
    Ok(Output(series, s))
  }

  /** The pmf column of the output is a pmf over the entro_bins bins, and
      in a base above one the entropy is never negative. */
  lemma Adj2dShannonSummary(sig1: seq<real>, sig2: seq<real>, time: seq<real>, win: int, sld: int,
                            bins: int, entroBins: int, base: real, norm: bool,
                            sqrt: real -> real, log: real -> real)
    requires |sig1| == |time| && |sig2| == |time|
    requires Adj2dShannon(sig1, sig2, time, win, sld, bins, entroBins, base, norm, sqrt, log).Ok?
    ensures var o := Adj2dShannon(sig1, sig2, time, win, sld, bins, entroBins, base, norm, sqrt, log).value;
      && IsPmf(Firsts(o.pmf)) && |o.pmf| == entroBins
      && (LogLike(log) && base > 1.0 ==> o.entropy >= 0.0)
  {
    var o := Adj2dShannon(sig1, sig2, time, win, sld, bins, entroBins, base, norm, sqrt, log).value;
    var s := Summarise(Firsts(o.data), entroBins, base, norm, sqrt, log).value;
    if LogLike(log) && base > 1.0 {
      EntropyNonNegative(s.pmf, base, norm, log);
    }
  }

  /** A step that returns a rate returns a non-negative one, stamped with
      the first time of window t. */
  lemma {:induction false} StepRow(d1: Array3, d2: Array3, time: Array2, t: nat, bins: int, sqrt: real -> real, rate: real, stamp: real)
    requires d1.Valid() && d2.Valid() && time.Valid() && d1.t == time.rows && d2.t == time.rows
    requires Adj2dCollectRate(d1, d2, time, t, Grid(Same(bins)), sqrt) == Ok(Some(RateAt(rate, stamp)))
    ensures rate >= 0.0 && t < time.rows && time.cols >= 1 && stamp == time.at[t][0]
  {
  }
}
