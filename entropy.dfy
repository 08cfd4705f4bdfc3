/** The Shannon-entropy summary that both Shannon drivers apply to a series
    of information rates: a density histogram of the square roots of the
    rates, turned into a pmf over the bin centres, and the entropy of that
    pmf in a given base, optionally divided by the entropy of the uniform
    pmf over as many bins.

    `scipy.stats.entropy` is modelled on the reals: it first divides the
    pmf by its own total and then sums `-p log p` over the positive
    entries. The natural logarithm and the square root are parameters. */
module Entropy {
  import opened Common
  import opened Histogram
  import opened FixRange

  /** What the entropy bounds need from the natural logarithm: negative
      below one, zero at one, positive above one. */
  ghost predicate LogLike(log: real -> real) {
    forall x: real :: x > 0.0 ==>
      (x < 1.0 ==> log(x) < 0.0) && (x == 1.0 ==> log(x) == 0.0) && (x > 1.0 ==> log(x) > 0.0)
  }

  /** `scipy.special.entr`: `-x log x` for positive x and 0 at 0. */
  function Entr(x: real, log: real -> real): real {
    if x > 0.0 then -Times(x, log(x)) else 0.0
  }

  function Entrs(p: seq<real>, log: real -> real): (r: seq<real>)
    ensures |r| == |p| && forall k :: 0 <= k < |p| ==> r[k] == Entr(p[k], log)
  {
    seq(|p|, k requires 0 <= k < |p| => Entr(p[k], log))
  }

  /** The entropy in nats of an already normalised pmf. */
  function Nats(p: seq<real>, log: real -> real): real {
    Sum(Entrs(p, log))
  }

  /** On (0, 1] the term `-x log x` is never negative, and it is zero at 0 and 1. */
  lemma EntrNonNegative(x: real, log: real -> real)
    requires LogLike(log) && 0.0 <= x <= 1.0
    ensures Entr(x, log) >= 0.0
    ensures (x == 0.0 || x == 1.0) ==> Entr(x, log) == 0.0
    ensures 0.0 < x < 1.0 ==> Entr(x, log) > 0.0
  {
    if 0.0 < x < 1.0 {
      TimesPositive(x, -log(x));
    }
  }

  /** A non-negative entry is at most the total. */
  lemma {:induction false} EntryAtMostSum(s: seq<real>, k: nat)
    requires forall j :: 0 <= j < |s| ==> s[j] >= 0.0
    requires k < |s|
    ensures s[k] <= Sum(s)
  {
    SumNonNegative(s[1..]);
    if k > 0 {
      EntryAtMostSum(s[1..], k - 1);
    }
  }

  /** Two different non-negative entries together are at most the total. */
  lemma {:induction false} TwoEntriesAtMostSum(s: seq<real>, j: nat, k: nat)
    requires forall i :: 0 <= i < |s| ==> s[i] >= 0.0
    requires j < |s| && k < |s| && j != k
    ensures s[j] + s[k] <= Sum(s)
  {
    if j == 0 {
      EntryAtMostSum(s[1..], k - 1);
    } else if k == 0 {
      EntryAtMostSum(s[1..], j - 1);
    } else {
      TwoEntriesAtMostSum(s[1..], j - 1, k - 1);
    }
  }

  /** The entropy in nats of a pmf with entries in [0, 1] is never negative. */
  lemma NatsNonNegative(p: seq<real>, log: real -> real)
    requires LogLike(log) && forall k :: 0 <= k < |p| ==> 0.0 <= p[k] <= 1.0
    ensures Nats(p, log) >= 0.0
  {
    forall k | 0 <= k < |p| ensures Entrs(p, log)[k] >= 0.0 {
      EntrNonNegative(p[k], log);
    }
    SumNonNegative(Entrs(p, log));
  }

  predicate NonNegative(s: seq<real>) {
    forall k :: 0 <= k < |s| ==> s[k] >= 0.0
  }

  /** `scipy.stats.entropy(pk, base=base)`: a base that is not positive is
      refused before anything else (a ValueError); otherwise `pk` over its
      total, the entropy in nats, over log(base). A zero total is 0/0, a
      negative share has entropy term minus infinity, and a base of one
      divides by log(1) = 0. */
  function ScipyEntropy(pk: seq<real>, base: real, log: real -> real): (r: Result<real>)
    ensures base <= 0.0 ==> r == Err(NonPositiveBase)
    ensures base > 0.0 && r.Err? ==> r.error == NotFinite
    ensures r.Ok? <==> && base > 0.0 && log(base) != 0.0
                       && Sum(pk) != 0.0 && NonNegative(Scale(pk, Sum(pk)))
    ensures r.Ok? ==> r.value == Nats(Scale(pk, Sum(pk)), log) / log(base)
  {
    if base <= 0.0 then Err(NonPositiveBase)
    else
      var nats :- NatsEntropy(pk, log);
      if log(base) == 0.0 then Err(NotFinite)
      else Ok(nats / log(base))
  }

  /** `scipy.stats.entropy(pk)` with no base: the entropy in nats of `pk`
      over its total, failing as in any base. */
  function NatsEntropy(pk: seq<real>, log: real -> real): (r: Result<real>)
    ensures r.Err? ==> r.error == NotFinite
    ensures r.Ok? <==> Sum(pk) != 0.0 && NonNegative(Scale(pk, Sum(pk)))
    ensures r.Ok? ==> r.value == Nats(Scale(pk, Sum(pk)), log)
  {
    if Sum(pk) == 0.0 then Err(NotFinite)
    else if !NonNegative(Scale(pk, Sum(pk))) then Err(NotFinite)
    else Ok(Nats(Scale(pk, Sum(pk)), log))
  }

  /** Shares of a non-negative `pk` with a positive total lie in [0, 1]. */
  lemma SharesInUnit(pk: seq<real>)
    requires NonNegative(pk) && Sum(pk) > 0.0
    ensures forall k :: 0 <= k < |pk| ==> 0.0 <= Scale(pk, Sum(pk))[k] <= 1.0
  {
    forall k | 0 <= k < |pk| ensures 0.0 <= Scale(pk, Sum(pk))[k] <= 1.0 {
      EntryAtMostSum(pk, k);
      Fraction(pk[k], Sum(pk));
    }
  }

  /** The entropy in nats of non-negative weights is never negative. */
  lemma NatsEntropyNonNegative(pk: seq<real>, log: real -> real)
    requires LogLike(log) && NonNegative(pk) && NatsEntropy(pk, log).Ok?
    ensures NatsEntropy(pk, log).value >= 0.0
  {
    SumNonNegative(pk);
    SharesInUnit(pk);
    NatsNonNegative(Scale(pk, Sum(pk)), log);
  }

  /** Weights with all their mass in one place have entropy zero. */
  lemma PointMassNatsZero(pk: seq<real>, log: real -> real, k: nat)
    requires LogLike(log) && NonNegative(pk) && k < |pk| && pk[k] == Sum(pk) && Sum(pk) > 0.0
    ensures NatsEntropy(pk, log) == Ok(0.0)
  {
    var q := Scale(pk, Sum(pk));
    var e := Entrs(q, log);
    forall j | 0 <= j < |e| ensures q[j] >= 0.0 && e[j] == 0.0 {
      PointMassShare(pk, j, k);
      EntrNonNegative(q[j], log);
    }
    SumAllZero(e);
  }

  lemma {:induction false} PointMassShare(pk: seq<real>, j: nat, k: nat)
    requires NonNegative(pk) && j < |pk| && k < |pk| && pk[k] == Sum(pk) && Sum(pk) > 0.0
    ensures Scale(pk, Sum(pk))[j] == if j == k then 1.0 else 0.0
  {
    var s := Sum(pk);
    assert Scale(pk, s)[j] == pk[j] / s;
    if j != k {
      TwoEntriesAtMostSum(pk, j, k);
      assert pk[j] == 0.0;
    } else {
      DivSelf(s);
    }
  }

  /** In a base above one the entropy is never negative, and it is positive
      as soon as some entry carries a share strictly between 0 and 1. */
  lemma ScipyEntropyNonNegative(pk: seq<real>, base: real, log: real -> real)
    requires forall k :: 0 <= k < |pk| ==> pk[k] >= 0.0
    requires LogLike(log) && base > 1.0 && ScipyEntropy(pk, base, log).Ok?
    ensures ScipyEntropy(pk, base, log).value >= 0.0
    ensures (exists k :: 0 <= k < |pk| && 0.0 < pk[k] < Sum(pk)) ==> ScipyEntropy(pk, base, log).value > 0.0
  {
    SumNonNegative(pk);
    var p := Scale(pk, Sum(pk));
    SharesInUnit(pk);
    NatsNonNegative(p, log);
    DivNonNegative(Nats(p, log), log(base));
    if k :| 0 <= k < |pk| && 0.0 < pk[k] < Sum(pk) {
      Fraction(pk[k], Sum(pk));
      var e := Entrs(p, log);
      forall j | 0 <= j < |e| ensures e[j] >= 0.0 {
        EntrNonNegative(p[j], log);
      }
      EntrNonNegative(p[k], log);
      EntryPositiveSum(e, k);
      Fraction(Nats(p, log), log(base));
    }
  }

  /** A sum of non-negative entries with one positive entry is positive. */
  lemma EntryPositiveSum(s: seq<real>, k: nat)
    requires forall j :: 0 <= j < |s| ==> s[j] >= 0.0
    requires k < |s| && s[k] > 0.0
    ensures Sum(s) > 0.0
  {
    EntryAtMostSum(s, k);
  }

  /** `np.ones(n) / n`. */
  function Uniform(n: nat): (u: seq<real>)
    ensures |u| == n && forall k :: 0 <= k < n ==> u[k] == 1.0 / (n as real)
  {
    seq(n, k requires 0 <= k < n => 1.0 / (n as real))
  }

  /** The uniform pmf sums to one. */
  lemma UniformSum(n: nat)
    requires n >= 1
    ensures Sum(Uniform(n)) == 1.0
  {
    SumConstant(Uniform(n), 1.0 / (n as real));
  }

  /** The pmf of a density over bins of one width: density x width. */
  function Masses(d: seq<real>, w: real): (p: seq<real>)
    ensures |p| == |d| && forall k :: 0 <= k < |d| ==> p[k] == Times(d[k], w)
  {
    if d == [] then [] else [Times(d[0], w)] + Masses(d[1..], w)
  }

  lemma {:induction false} SumMasses(d: seq<real>, w: real)
    ensures Sum(Masses(d, w)) == Times(Sum(d), w)
  {
    if d != [] {
      assert Masses(d, w)[1..] == Masses(d[1..], w);
      SumMasses(d[1..], w);
      TimesDistrib(d[0], Sum(d[1..]), w);
    }
  }

  /** `np.diff(c)[0]`. */
  function Gap(c: seq<real>): real
    requires |c| >= 2
  {
    c[1] - c[0]
  }

  /** A pmf: non-negative entries adding up to one. */
  ghost predicate IsPmf(p: seq<real>) {
    Sum(p) == 1.0 && forall k :: 0 <= k < |p| ==> 0.0 <= p[k] <= 1.0
  }

  /** `np.histogram(xs, bins=bins, density=True)`, the centres of its bins
      and the pmf `pdf * diff(centres)[0]`. A bin count below one is refused
      by the histogram; one bin has no centre gap (an IndexError, raised
      whether or not there are samples, since a NaN density raises nothing);
      no sample at all leaves a NaN density. */
  function PmfTable(xs: seq<real>, bins: int): (r: Result<(seq<real>, seq<real>)>)
    ensures bins < 1 ==> r == Err(NonPositiveBins)
    ensures bins == 1 ==> r == Err(IndexOutOfRange)
    ensures r.Ok? <==> xs != [] && bins >= 2
    ensures r.Ok? ==>
      && |r.value.0| == bins && |r.value.1| == bins && IsPmf(r.value.0)
      && r.value.1 == Centres(HistogramAuto(xs, bins).value.edges)
      && r.value.0 == Masses(HistogramAuto(xs, bins).value.density, Gap(r.value.1))
  {
    if bins < 1 then Err(NonPositiveBins)
    else if bins < 2 then Err(IndexOutOfRange)
    else
      var h :- HistogramAuto(xs, bins);
      var c := Centres(h.edges);
      var pmf := Masses(h.density, Gap(c));
      PmfFacts(xs, bins, pmf);
      Ok((pmf, c))
  }

  /** The pmf is taken over the bin centres: each centre lies strictly
      inside its bin, and the gap the pmf is scaled by is the bin width. */
  lemma PmfTableCentres(xs: seq<real>, bins: int)
    requires PmfTable(xs, bins).Ok?
    ensures var e := HistogramAuto(xs, bins).value.edges;
      var c := PmfTable(xs, bins).value.1;
      && (forall k :: 0 <= k < bins ==> e[k] < c[k] < e[k + 1])
      && Gap(c) == e[1] - e[0] > 0.0
  {
    HistogramAutoIsDensity(xs, bins);
    var h := HistogramAuto(xs, bins).value;
    DensityCentres(h, xs, Outer(SeqMin(xs), SeqMax(xs)).0, Outer(SeqMin(xs), SeqMax(xs)).1, bins);
  }

  lemma DensityCentres(h: Hist, xs: seq<real>, lo: real, hi: real, bins: int)
    requires IsDensityOf(h, xs, lo, hi, bins) && bins >= 2
    ensures (forall k :: 0 <= k < bins ==> h.edges[k] < Centres(h.edges)[k] < h.edges[k + 1])
    ensures Gap(Centres(h.edges)) == h.edges[1] - h.edges[0] > 0.0
  {
    CentresOfEdges(h.edges);
  }

  /** The entropy of the pmf in `base`, over the entropy of `ones(n)/n` in
      the same base when `norm` holds; a NaN or infinite entropy is reported
      as such, after a base that is not positive has been refused. */
  function EntropyOf(pmf: seq<real>, base: real, norm: bool, log: real -> real): (r: Result<real>)
    ensures !norm ==> r == ScipyEntropy(pmf, base, log)
    ensures norm && r.Ok? ==>
      && ScipyEntropy(pmf, base, log).Ok? && ScipyEntropy(Uniform(|pmf|), base, log).Ok?
      && ScipyEntropy(Uniform(|pmf|), base, log).value != 0.0
      && r.value == ScipyEntropy(pmf, base, log).value / ScipyEntropy(Uniform(|pmf|), base, log).value
    ensures base <= 0.0 ==> r == Err(NonPositiveBase)
    ensures base > 0.0 && r.Err? ==> r.error == NotFinite
  {
    var raw :- ScipyEntropy(pmf, base, log);
    if !norm then Ok(raw)
    else
      var u :- ScipyEntropy(Uniform(|pmf|), base, log);
      if u == 0.0 then Err(NotFinite) else Ok(raw / u)
  }

  /** In a base above one the entropy of a pmf is never negative, normalised
      or not. */
  lemma EntropyNonNegative(pmf: seq<real>, base: real, norm: bool, log: real -> real)
    requires LogLike(log) && base > 1.0 && IsPmf(pmf)
    requires EntropyOf(pmf, base, norm, log).Ok?
    ensures EntropyOf(pmf, base, norm, log).value >= 0.0
  {
    ScipyEntropyNonNegative(pmf, base, log);
    if norm {
      var n := |pmf|;
      UniformSum(n);
      ScipyEntropyNonNegative(Uniform(n), base, log);
      DivNonNegative(ScipyEntropy(pmf, base, log).value, ScipyEntropy(Uniform(n), base, log).value);
    }
  }

  /** A flat pmf has normalised entropy exactly one. */
  lemma FlatEntropyOne(pmf: seq<real>, base: real, log: real -> real)
    requires IsPmf(pmf) && forall k :: 0 <= k < |pmf| ==> pmf[k] == pmf[0]
    requires EntropyOf(pmf, base, true, log).Ok?
    ensures EntropyOf(pmf, base, true, log).value == 1.0
  {
    var n := |pmf|;
    var p, u := Scale(pmf, Sum(pmf)), Scale(Uniform(n), Sum(Uniform(n)));
    FlatShares(pmf);
    UniformSum(n);
    assert p == u;
    DivSelf(ScipyEntropy(Uniform(n), base, log).value);
  }

  /** Normalising a flat pmf gives `1/n` in every place. */
  lemma FlatShares(pmf: seq<real>)
    requires IsPmf(pmf) && forall k :: 0 <= k < |pmf| ==> pmf[k] == pmf[0]
    ensures forall k :: 0 <= k < |pmf| ==> Scale(pmf, Sum(pmf))[k] == 1.0 / (|pmf| as real)
  {
    SumConstant(pmf, pmf[0]);
    assert pmf[0] == 1.0 / (|pmf| as real);
  }

  /** A pmf with all its mass on one bin has entropy zero, normalised or not. */
  lemma PointMassEntropyZero(pmf: seq<real>, base: real, norm: bool, log: real -> real, k: nat)
    requires LogLike(log) && IsPmf(pmf) && k < |pmf| && pmf[k] == 1.0
    requires EntropyOf(pmf, base, norm, log).Ok?
    ensures EntropyOf(pmf, base, norm, log).value == 0.0
  {
    PointMassNatsZero(pmf, log, k);
  }

  /** The entropy, the pmf and the bin centres it is taken over. */
  datatype Summary = Summary(entropy: real, pmf: seq<real>, centres: seq<real>)

  /** The summary the drivers take of their rates: the pmf table of the
      square roots of the rates and its entropy. */
  function Summarise(rates: seq<real>, entroBins: int, base: real, norm: bool,
                     sqrt: real -> real, log: real -> real): (r: Result<Summary>)
    ensures entroBins < 1 ==> r == Err(NonPositiveBins)
    ensures entroBins == 1 ==> r == Err(IndexOutOfRange)
    ensures r.Ok? ==> rates != [] && entroBins >= 2
    ensures r.Ok? ==>
      && PmfTable(Apply(rates, sqrt), entroBins) == Ok((r.value.pmf, r.value.centres))
      && IsPmf(r.value.pmf) && |r.value.pmf| == entroBins && |r.value.centres| == entroBins
      && EntropyOf(r.value.pmf, base, norm, log) == Ok(r.value.entropy)
  {
    var (pmf, c) :- PmfTable(Apply(rates, sqrt), entroBins);
    var e :- EntropyOf(pmf, base, norm, log);
    Ok(Summary(e, pmf, c))
  }

  /** The pmf of a density histogram is a pmf: one non-negative entry per
      bin, adding up to one. */
  lemma DensityMasses(h: Hist, xs: seq<real>, lo: real, hi: real, bins: int, w: real)
    requires IsDensityOf(h, xs, lo, hi, bins) && w == h.edges[1] - h.edges[0]
    ensures |Masses(h.density, w)| == bins && IsPmf(Masses(h.density, w))
  {
    DensitySumTimesWidth(h, xs, lo, hi, bins);
    DensityNonNegative(h, xs, lo, hi, bins);
    SumMasses(h.density, w);
    assert Times(Sum(h.density), w) == 1.0;
    assert h.edges[0] < h.edges[1];
    var p := Masses(h.density, w);
    forall k | 0 <= k < bins ensures p[k] >= 0.0 {
      TimesNonNegative(h.density[k], w);
    }
    forall k | 0 <= k < bins ensures p[k] <= 1.0 {
      EntryAtMostSum(p, k);
    }
  }

  /** So the pmf the summary builds from its histogram is a pmf. */
  lemma PmfFacts(xs: seq<real>, bins: int, pmf: seq<real>)
    requires bins >= 2 && HistogramAuto(xs, bins).Ok?
    requires pmf == Masses(HistogramAuto(xs, bins).value.density, Gap(Centres(HistogramAuto(xs, bins).value.edges)))
    ensures |pmf| == bins && IsPmf(pmf)
  {
    var h := HistogramAuto(xs, bins).value;
    HistogramAutoIsDensity(xs, bins);
    CentresOfEdges(h.edges);
    DensityMasses(h, xs, Outer(SeqMin(xs), SeqMax(xs)).0, Outer(SeqMin(xs), SeqMax(xs)).1, bins, Gap(Centres(h.edges)));
  }

  /** `np.vstack((a, b)).T`: the rows (a[k], b[k]). */
  function Table(a: seq<real>, b: seq<real>): (r: seq<(real, real)>)
    requires |a| == |b|
    ensures |r| == |a| && forall k :: 0 <= k < |a| ==> r[k] == (a[k], b[k])
  {
    seq(|a|, k requires 0 <= k < |a| => (a[k], b[k]))
  }

  /** The first and the second column of a table. */
  function Firsts(rows: seq<(real, real)>): (c: seq<real>)
    ensures |c| == |rows| && forall k :: 0 <= k < |rows| ==> c[k] == rows[k].0
  {
    seq(|rows|, k requires 0 <= k < |rows| => rows[k].0)
  }

  function Seconds(rows: seq<(real, real)>): (c: seq<real>)
    ensures |c| == |rows| && forall k :: 0 <= k < |rows| ==> c[k] == rows[k].1
  {
    seq(|rows|, k requires 0 <= k < |rows| => rows[k].1)
  }

  /** The columns of a table are the sequences it was built from. */
  lemma TableColumns(a: seq<real>, b: seq<real>)
    requires |a| == |b|
    ensures Firsts(Table(a, b)) == a && Seconds(Table(a, b)) == b
  {
  }

  /** What the Shannon drivers return: the entropy, the (rate, time) table
      and the (pmf, bin centre) table. */
  datatype ShannonOutput = ShannonOutput(entropy: real, data: seq<(real, real)>, pmf: seq<(real, real)>)

  /** The output of a driver for a rate series and its summary. */
  function Output(series: Series, s: Summary): (o: ShannonOutput)
    requires |series.rates| == |series.times| && |s.pmf| == |s.centres|
    ensures o.entropy == s.entropy
    ensures Firsts(o.data) == series.rates && Seconds(o.data) == series.times
    ensures Firsts(o.pmf) == s.pmf && Seconds(o.pmf) == s.centres
  {
    TableColumns(series.rates, series.times);
    TableColumns(s.pmf, s.centres);
    ShannonOutput(s.entropy, Table(series.rates, series.times), Table(s.pmf, s.centres))
  }
}
