/** `disper_entropy(x, d, m, c, norm)`: dispersion entropy of a series.

    Every sample is first sent through the normal CDF of the series (taken
    here as the input `cdf`), then mapped to a class `round(c * y + 0.5)`.
    The classes are cut into patterns of `m` consecutive classes, keeping
    every `d`-th pattern; the distinct patterns are counted, and the pmf
    has one entry per pattern: the count of every distinct pattern over the
    number of patterns, then zeros for the rest. The result is the entropy
    of that pmf, in base `c^m` when normalised and in nats otherwise. */
module DisperEntropy {
  import opened Common
  import opened Windowing
  import opened Entropy

  /** `np.round`: the nearest integer, with exact halves going to the even
      neighbour. */
  function RoundHalfEven(v: real): (r: int)
    ensures -0.5 <= r as real - v <= 0.5
    ensures (r as real - v == 0.5 || v - r as real == 0.5) ==> r % 2 == 0
  {
    var f := v.Floor;
    var frac := v - f as real;
    if frac < 0.5 then f
    else if frac > 0.5 then f + 1
    else if f % 2 == 0 then f else f + 1
  }

  /** How far the integer `n` lies from `v`. */
  function Distance(n: int, v: real): real {
    if n as real >= v then n as real - v else v - n as real
  }

  /** No integer is nearer to `v` than its rounding, and another integer as
      near exists only at an exact half, where the rounding is even. */
  lemma RoundIsNearest(v: real, n: int)
    ensures Distance(n, v) >= Distance(RoundHalfEven(v), v)
    ensures n != RoundHalfEven(v) && Distance(n, v) == Distance(RoundHalfEven(v), v) ==>
      Distance(n, v) == 0.5 && RoundHalfEven(v) % 2 == 0
  {
    var r := RoundHalfEven(v);
    if n != r {
      assert n <= r - 1 || n >= r + 1;
    }
  }

  /** `map_func(y, c)`: the class of one CDF value. */
  function Class(y: real, c: real): real {
    RoundHalfEven(c * y + 0.5) as real
  }

  function Classes(cdf: seq<real>, c: real): (z: seq<real>)
    ensures |z| == |cdf| && forall i :: 0 <= i < |cdf| ==> z[i] == Class(cdf[i], c)
  {
    seq(|cdf|, i requires 0 <= i < |cdf| => Class(cdf[i], c))
  }

  /** `sliding_window_view(z, m)[::d]`: the patterns. A negative or too long
      pattern length and a zero step are ValueErrors. */
  function Patterns(cdf: seq<real>, c: real, m: int, d: int): (r: Result<seq<seq<real>>>)
    ensures r.Ok? <==> 0 <= m <= |cdf| && d != 0
    ensures r.Err? ==> r.error == BadWindow
    ensures r.Ok? ==> |r.value| == (|cdf| - m) / Abs(d) + 1
  {
    Windows(Classes(cdf, c), m, d)
  }

  /** With a positive step the k-th pattern is the `m` classes from k * d
      on. */
  lemma PatternsStrided(cdf: seq<real>, c: real, m: int, d: int, k: nat)
    requires 0 <= m <= |cdf| && d > 0 && k < |Patterns(cdf, c, m, d).value|
    ensures k * d + m <= |cdf|
    ensures forall i :: 0 <= i < m ==> Patterns(cdf, c, m, d).value[k][i] == Class(cdf[k * d + i], c)
  {
    ForwardWindows(Classes(cdf, c), m, d, k);
  }

  predicate NoDuplicates(u: seq<seq<real>>) {
    forall i, j :: 0 <= i < j < |u| ==> u[i] != u[j]
  }

  /** The distinct patterns, each once, in order of first appearance. */
  function Distinct(ps: seq<seq<real>>): (u: seq<seq<real>>)
    ensures |u| <= |ps| && (ps != [] ==> |u| >= 1)
    ensures forall x :: x in u <==> x in ps
    ensures NoDuplicates(u)
  {
    if ps == [] then []
    else
      var init, last := ps[..|ps| - 1], ps[|ps| - 1];
      assert ps == init + [last];
      var rest := Distinct(init);
      if last in rest then rest else rest + [last]
  }

  /** How many times the pattern `x` occurs. */
  function Occurrences(ps: seq<seq<real>>, x: seq<real>): (n: real)
    ensures 0.0 <= n <= |ps| as real
    ensures x in ps ==> n >= 1.0
    ensures x !in ps ==> n == 0.0
  {
    if ps == [] then 0.0
    else (if ps[0] == x then 1.0 else 0.0) + Occurrences(ps[1..], x)
  }

  /** The occurrences of every pattern of `u`, in the order of `u`. */
  function OccurrencesOf(ps: seq<seq<real>>, u: seq<seq<real>>): (c: seq<real>)
    ensures |c| == |u| && forall k :: 0 <= k < |u| ==> c[k] == Occurrences(ps, u[k])
  {
    seq(|u|, k requires 0 <= k < |u| => Occurrences(ps, u[k]))
  }

  /** `np.unique(patterns, axis=0, return_counts=True)[1]`. */
  function Counts(ps: seq<seq<real>>): (c: seq<real>)
    ensures |c| == |Distinct(ps)|
  {
    OccurrencesOf(ps, Distinct(ps))
  }

  /** A pattern listed once is counted once. */
  lemma {:induction false} IndicatorSum(u: seq<seq<real>>, p: seq<real>)
    requires NoDuplicates(u) && p in u
    ensures Sum(Indicator(u, p)) == 1.0
  {
    var r := Indicator(u, p);
    if u[0] == p {
      forall j | 0 <= j < |u| - 1 ensures r[1..][j] == 0.0 {
        assert u[1..][j] == u[j + 1] != u[0];
      }
      SumAllZero(r[1..]);
    } else {
      assert r[1..] == Indicator(u[1..], p);
      IndicatorSum(u[1..], p);
    }
  }

  /** Over a list holding every pattern once, the occurrences add up to the
      number of patterns. */
  lemma {:induction false} SumOccurrences(ps: seq<seq<real>>, u: seq<seq<real>>)
    requires NoDuplicates(u) && forall x :: x in ps ==> x in u
    ensures Sum(OccurrencesOf(ps, u)) == |ps| as real
  {
    var c := OccurrencesOf(ps, u);
    if ps == [] {
      SumAllZero(c);
    } else {
      var a, b := Indicator(u, ps[0]), OccurrencesOf(ps[1..], u);
      SumAdd(a, b, c);
      IndicatorSum(u, ps[0]);
      SumOccurrences(ps[1..], u);
    }
  }

  /** Every distinct pattern is counted at least once, and the counts add up
      to the number of patterns. */
  lemma CountsPositiveSum(ps: seq<seq<real>>)
    ensures forall k :: 0 <= k < |Counts(ps)| ==> Counts(ps)[k] >= 1.0
    ensures Sum(Counts(ps)) == |ps| as real
  {
    SumOccurrences(ps, Distinct(ps));
  }

  /** The pmf: the counts followed by zeros, one entry per pattern, over
      the number of patterns. */
  function PatternPmf(ps: seq<seq<real>>): (pmf: seq<real>)
    requires ps != []
    ensures |pmf| == |ps|
    ensures forall k :: 0 <= k < |Counts(ps)| ==> pmf[k] == Counts(ps)[k] / (|ps| as real)
    ensures forall k :: |Counts(ps)| <= k < |ps| ==> pmf[k] == 0.0
  {
    var c := Counts(ps);
    seq(|ps|, k requires 0 <= k < |ps| => if k < |c| then c[k] / (|ps| as real) else 0.0)
  }

  /** The counts padded with zeros to one entry per pattern. */
  function Padded(ps: seq<seq<real>>): (all: seq<real>)
    ensures |all| == |ps|
    ensures forall k :: 0 <= k < |Counts(ps)| ==> all[k] == Counts(ps)[k]
    ensures forall k :: |Counts(ps)| <= k < |ps| ==> all[k] == 0.0
  {
    Counts(ps) + Zeros(|ps| - |Counts(ps)|)
  }

  /** The padded counts are non-negative and add up to the number of
      patterns. */
  lemma PaddedSum(ps: seq<seq<real>>)
    ensures NonNegative(Padded(ps)) && Sum(Padded(ps)) == |ps| as real
  {
    var c := Counts(ps);
    CountsPositiveSum(ps);
    SumAppend(c, Zeros(|ps| - |c|));
  }

  /** The pmf is the padded counts over their total. */
  lemma PatternPmfIsScale(ps: seq<seq<real>>)
    requires ps != []
    ensures PatternPmf(ps) == Scale(Padded(ps), |ps| as real)
  {
    var c, all, n := Counts(ps), Padded(ps), |ps| as real;
    var pmf, scaled := PatternPmf(ps), Scale(all, n);
    assert |pmf| == |scaled|;
    forall k | 0 <= k < |ps| ensures pmf[k] == scaled[k] {
      assert scaled[k] == all[k] / n;
      if k < |c| {
        assert pmf[k] == c[k] / n && all[k] == c[k];
        assert scaled[k] == c[k] / n;
      } else {
        assert pmf[k] == 0.0 && all[k] == 0.0;
        assert scaled[k] == 0.0 / n == 0.0;
      }
    }
  }

  /** The pmf of the patterns is a pmf. */
  lemma PatternPmfIsPmf(ps: seq<seq<real>>)
    requires ps != []
    ensures IsPmf(PatternPmf(ps))
  {
    var all := Padded(ps);
    PaddedSum(ps);
    PatternPmfIsScale(ps);
    SharesInUnit(all);
    SumScale(all, Sum(all));
    DivSelf(Sum(all));
  }

  /** `c ** m`. */
  function Power(c: real, m: nat): real {
    if m == 0 then 1.0 else c * Power(c, m - 1)
  }

  /** A base above one to a positive power is above one. */
  lemma {:induction false} PowerAboveOne(c: real, m: nat)
    requires c > 1.0 && m >= 1
    ensures Power(c, m) > 1.0
  {
    if m > 1 {
      PowerAboveOne(c, m - 1);
      TimesPositive(c - 1.0, Power(c, m - 1));
      assert c * Power(c, m - 1) == Times(c - 1.0, Power(c, m - 1)) + Power(c, m - 1);
    }
  }

  /** `disper_entropy`. It fails with a ValueError when the patterns cannot
      be cut or, when normalised, when the base `c^m` is not positive; it is
      NaN or infinite when normalised with the base one. */
  function DisperEntropy(cdf: seq<real>, d: int, m: int, c: real, norm: bool, log: real -> real): (r: Result<real>)
    ensures !(0 <= m <= |cdf| && d != 0) ==> r == Err(BadWindow)
    ensures 0 <= m <= |cdf| && d != 0 ==>
      (r.Ok? <==> !norm || (Power(c, m) > 0.0 && log(Power(c, m)) != 0.0))
    ensures 0 <= m <= |cdf| && d != 0 && norm && Power(c, m) <= 0.0 ==> r == Err(NonPositiveBase)
    ensures r.Ok? ==> 0 <= m <= |cdf| && d != 0
    ensures r.Ok? && !norm ==> r.value == Nats(PatternPmf(Patterns(cdf, c, m, d).value), log)
    ensures r.Ok? && norm ==>
      r.value == Nats(PatternPmf(Patterns(cdf, c, m, d).value), log) / log(Power(c, m))
    ensures r.Err? ==> r.error == BadWindow || r.error == NonPositiveBase || r.error == NotFinite
  {
    var ps :- Patterns(cdf, c, m, d);
    var pmf := PatternPmf(ps);
    PatternPmfIsPmf(ps);
    ScaleByOne(pmf);
    if norm then ScipyEntropy(pmf, Power(c, m), log) else NatsEntropy(pmf, log)
  }

  /** In nats, or normalised with c > 1 and m >= 1, the dispersion entropy
      is never negative. */
  lemma DisperEntropyNonNegative(cdf: seq<real>, d: int, m: int, c: real, norm: bool, log: real -> real)
    requires LogLike(log) && DisperEntropy(cdf, d, m, c, norm, log).Ok?
    requires norm ==> c > 1.0 && m >= 1
    ensures DisperEntropy(cdf, d, m, c, norm, log).value >= 0.0
  {
    var pmf := PatternPmf(Patterns(cdf, c, m, d).value);
    PatternPmfIsPmf(Patterns(cdf, c, m, d).value);
    NatsNonNegative(pmf, log);
    if norm {
      PowerAboveOne(c, m);
      DivNonNegative(Nats(pmf, log), log(Power(c, m)));
    }
  }

  /** CDF values that all fall in one class give a single pattern and
      dispersion entropy zero. (A constant input series is a different
      case: its CDF is NaN, which these real inputs cannot express.) */
  lemma OneClassZeroEntropy(cdf: seq<real>, d: int, m: int, c: real, norm: bool, log: real -> real)
    requires LogLike(log) && DisperEntropy(cdf, d, m, c, norm, log).Ok?
    requires forall i :: 0 <= i < |cdf| ==> Class(cdf[i], c) == Class(cdf[0], c)
    ensures |Distinct(Patterns(cdf, c, m, d).value)| == 1
    ensures DisperEntropy(cdf, d, m, c, norm, log).value == 0.0
  {
    var ps := Patterns(cdf, c, m, d).value;
    SamePatterns(cdf, c, m, d);
    OneDistinct(ps);
    OnePattern(ps, log);
    if norm {
      assert 0.0 / log(Power(c, m)) == 0.0;
    }
  }

  /** One class throughout cuts into one repeated pattern. */
  lemma SamePatterns(cdf: seq<real>, c: real, m: int, d: int)
    requires Patterns(cdf, c, m, d).Ok?
    requires forall i :: 0 <= i < |cdf| ==> Class(cdf[i], c) == Class(cdf[0], c)
    ensures forall k :: 0 <= k < |Patterns(cdf, c, m, d).value| ==>
      Patterns(cdf, c, m, d).value[k] == Patterns(cdf, c, m, d).value[0]
  {
    var ps := Patterns(cdf, c, m, d).value;
    var z := Classes(cdf, c);
    forall k | 0 <= k < |ps| ensures ps[k] == ps[0] {
      var s, s0 := Start(|z| - m + 1, d, k), Start(|z| - m + 1, d, 0);
      assert ps[k] == z[s..s + m] && ps[0] == z[s0..s0 + m];
      forall i | 0 <= i < m ensures ps[k][i] == ps[0][i] {
        assert ps[k][i] == z[s + i] && ps[0][i] == z[s0 + i];
      }
    }
  }

  /** A list of one repeated pattern has one distinct pattern. */
  lemma OneDistinct(ps: seq<seq<real>>)
    requires ps != [] && forall k :: 0 <= k < |ps| ==> ps[k] == ps[0]
    ensures |Distinct(ps)| == 1
  {
    var u := Distinct(ps);
    if |u| >= 2 {
      assert false;
    }
  }

  /** When every pattern is the same one, the pmf is a point mass. */
  lemma OnePattern(ps: seq<seq<real>>, log: real -> real)
    requires LogLike(log) && ps != [] && |Distinct(ps)| == 1
    ensures Nats(PatternPmf(ps), log) == 0.0
  {
    var pmf := PatternPmf(ps);
    var n := |ps| as real;
    CountsPositiveSum(ps);
    PatternPmfIsPmf(ps);
    assert Sum(Counts(ps)) == Counts(ps)[0];
    DivSelf(n);
    assert pmf[0] == 1.0;
    ScaleByOne(pmf);
    PointMassNatsZero(pmf, log, 0);
  }
}
