/** Sliding windows, `sliding_window_view(x, window_shape=win)[::sld, :]`.

    numpy first cuts every run of `win` consecutive samples, starting at 0, 1,
    ..., |x| - win (a negative `win` or one longer than the series is a
    ValueError), and then keeps every `sld`-th of those runs. A zero step is
    a ValueError; a negative step walks the runs backwards from the last one. */
module Windowing {
  import opened Common

  function Abs(n: int): nat { if n < 0 then -n else n }

  /** How many of `runs` runs a step of `sld` keeps: ceil(runs / |sld|). */
  function KeptCount(runs: nat, sld: int): nat
    requires runs >= 1 && sld != 0
  {
    (runs - 1) / Abs(sld) + 1
  }

  /** Where the k-th kept run starts. */
  function Start(runs: nat, sld: int, k: nat): (s: nat)
    requires runs >= 1 && sld != 0 && k < KeptCount(runs, sld)
    ensures s < runs
    ensures sld > 0 ==> s == k * sld
    ensures sld < 0 ==> s == runs - 1 - k * Abs(sld)
  {
    var step := Abs(sld);
    assert k * step <= runs - 1 by {
      assert k <= (runs - 1) / step;
      MulDivBound(k, runs - 1, step);
    }
    if sld > 0 then k * step else runs - 1 - k * step
  }

  /** k <= n / d gives k * d <= n. */
  lemma MulDivBound(k: nat, n: nat, d: nat)
    requires d > 0 && k <= n / d
    ensures k * d <= n
  {
    assert k * d <= (n / d) * d by {
      if k < n / d {
        assert (n / d) * d == k * d + (n / d - k) * d;
      }
    }
  }

  /** The kept windows of `x`. */
  function Windows(x: seq<real>, win: int, sld: int): (r: Result<seq<seq<real>>>)
    ensures r.Ok? <==> 0 <= win <= |x| && sld != 0
    ensures r.Err? ==> r.error == BadWindow
    ensures r.Ok? ==> |r.value| == KeptCount(|x| - win + 1, sld) >= 1
    ensures r.Ok? ==> forall k :: 0 <= k < |r.value| ==>
      var s := Start(|x| - win + 1, sld, k); r.value[k] == x[s..s + win]
  {
    if win < 0 || win > |x| || sld == 0 then Err(BadWindow)
    else
      var runs := |x| - win + 1;
      Ok(seq(KeptCount(runs, sld), k requires 0 <= k < KeptCount(runs, sld) =>
        var s := Start(runs, sld, k); x[s..s + win]))
  }

  /** A positive step keeps the runs in order, the k-th starting at k * sld;
      the kept runs are spread over all of them. */
  lemma ForwardWindows(x: seq<real>, win: int, sld: int, k: nat)
    requires 0 <= win <= |x| && sld > 0 && k < |Windows(x, win, sld).value|
    ensures k * sld + win <= |x|
    ensures Windows(x, win, sld).value[k] == x[k * sld..k * sld + win]
    ensures (k + 1) * sld + win > |x| <==> k == |Windows(x, win, sld).value| - 1
  {
    var runs := |x| - win + 1;
    var n := KeptCount(runs, sld);
    assert Start(runs, sld, k) == k * sld;
    if k == n - 1 {
      assert (runs - 1) / sld == k;
      assert runs - 1 < (k + 1) * sld;
    } else {
      assert k + 1 <= (runs - 1) / sld;
      MulDivBound(k + 1, runs - 1, sld);
    }
  }

  /** Windows of one length as a one-channel ensemble
      (`np.expand_dims(windows, axis=0)`). */
  function Ensemble(windows: seq<seq<real>>, win: nat): (d: Array3)
    requires forall k :: 0 <= k < |windows| ==> |windows[k]| == win
    ensures d.Valid() && d.n == 1 && d.t == |windows| && d.w == win
    ensures forall k :: 0 <= k < |windows| ==> d.Window(k) == windows[k]
  {
    var d := Array3(1, |windows|, win, [windows]);
    assert forall k :: 0 <= k < |windows| ==> d.Window(k) == FlattenRows([windows], k, win) == windows[k] by {
      forall k | 0 <= k < |windows| ensures FlattenRows([windows], k, win) == windows[k] {
        assert [windows][1..] == [];
      }
    }
    d
  }

  /** The windows of a signal as a one-channel ensemble, and of the time axis
      as a 2-D array; the windowing has succeeded. */
  function SignalWindows(x: seq<real>, win: int, sld: int): (d: Array3)
    requires 0 <= win <= |x| && sld != 0
    ensures d.Valid() && d.n == 1 && d.t == KeptCount(|x| - win + 1, sld) && d.w == win
    ensures d.at == [Windows(x, win, sld).value]
  {
    Ensemble(Windows(x, win, sld).value, win)
  }

  function TimeWindows(time: seq<real>, win: int, sld: int): (a: Array2)
    requires 0 <= win <= |time| && sld != 0
    ensures a.Valid() && a.rows == KeptCount(|time| - win + 1, sld) && a.cols == win
    ensures a.at == Windows(time, win, sld).value
  {
    Array2(|Windows(time, win, sld).value|, win, Windows(time, win, sld).value)
  }

  /** With a forward step, the first time of window t is sample t x sld. */
  lemma TimeWindowStart(time: seq<real>, win: int, sld: int, t: nat)
    requires 1 <= win <= |time| && sld > 0 && t < KeptCount(|time| - win + 1, sld)
    ensures t * sld < |time| && TimeWindows(time, win, sld).at[t][0] == time[t * sld]
  {
    ForwardWindows(time, win, sld, t);
  }
}
