/** The information-rate functional shared by every driver: for two densities
    p (before) and q (after) on the same bins of width dx, a time step dt apart,

        Gamma^2 = 4 * sum_k ((sqrt q[k] - sqrt p[k]) / dt)^2 * dx.

    The adjacent-window drivers write it in that order ("adjacent form"); the
    fixed-range drivers write 4 * sum_k (sqrt q[k] - sqrt p[k])^2 * (dx / dt^2)
    ("fixed form"); the two agree. The square root is a parameter: nothing is
    assumed about it. A time step of zero makes numpy divide by zero, which
    the drivers report as `Err(NotFinite)`. */
module InfoRate {
  import opened Common

  /** What the adjacent-window drivers return: a rate and the time stamp of the earlier window. */
  datatype RateAt = RateAt(rate: real, time: real)

  /** sum_k (sqrt q[k] - sqrt p[k])^2. */
  function SqGapSum(p: seq<real>, q: seq<real>, sqrt: real -> real): (r: real)
    requires |p| == |q|
    ensures r >= 0.0
  {
    if p == [] then 0.0 else Sq(sqrt(q[0]) - sqrt(p[0])) + SqGapSum(p[1..], q[1..], sqrt)
  }

  /** sum_k (sqrt q[k] - sqrt p[k]), the sum taken before any squaring. */
  function GapSum(p: seq<real>, q: seq<real>, sqrt: real -> real): real
    requires |p| == |q|
  {
    if p == [] then 0.0 else (sqrt(q[0]) - sqrt(p[0])) + GapSum(p[1..], q[1..], sqrt)
  }

  /** sum_k ((sqrt q[k] - sqrt p[k]) / dt)^2 * dx, term by term as the adjacent drivers compute it. */
  function AdjTerms(p: seq<real>, q: seq<real>, dt: real, dx: real, sqrt: real -> real): real
    requires |p| == |q| && dt != 0.0
  {
    if p == [] then 0.0
    else Times(Sq((sqrt(q[0]) - sqrt(p[0])) / dt), dx) + AdjTerms(p[1..], q[1..], dt, dx, sqrt)
  }

  /** The adjacent form `4 * np.sum(((sqrt q - sqrt p) / dt)**2 * dx)`. */
  function AdjRate(p: seq<real>, q: seq<real>, dt: real, dx: real, sqrt: real -> real): real
    requires |p| == |q| && dt != 0.0
  {
    4.0 * AdjTerms(p, q, dt, dx, sqrt)
  }

  /** The fixed form `4 * np.sum((sqrt q - sqrt p)**2) * (dx / dt**2)`. */
  function FixRate(p: seq<real>, q: seq<real>, dt: real, dx: real, sqrt: real -> real): real
    requires |p| == |q| && dt != 0.0
  {
    4.0 * Times(SqGapSum(p, q, sqrt), dx / Sq(dt))
  }

  /** One term: (g / dt)^2 * dx == g^2 * (dx / dt^2). */
  lemma TermForms(g: real, dt: real, dx: real, c: real)
    requires dt != 0.0 && c == dx / Sq(dt)
    ensures Times(Sq(g / dt), dx) == Times(Sq(g), c)
  {
    var h := g / dt;
    assert g == h * dt;
    calc {
      Times(Sq(g), c);
      (g * g) * (dx / (dt * dt));
      ((h * dt) * (h * dt)) * (dx / (dt * dt));
      (h * h) * dx;
      Times(Sq(h), dx);
    }
  }

  /** The adjacent terms are the squared gaps scaled by c = dx / dt^2. */
  lemma {:induction false} AdjTermsScale(p: seq<real>, q: seq<real>, dt: real, dx: real, c: real, sqrt: real -> real)
    requires |p| == |q| && dt != 0.0 && c == dx / Sq(dt)
    ensures AdjTerms(p, q, dt, dx, sqrt) == Times(SqGapSum(p, q, sqrt), c)
  {
    if p != [] {
      var g := sqrt(q[0]) - sqrt(p[0]);
      AdjTermsScale(p[1..], q[1..], dt, dx, c, sqrt);
      TermForms(g, dt, dx, c);
      TimesDistrib(Sq(g), SqGapSum(p[1..], q[1..], sqrt), c);
    }
  }

  /** The two ways the drivers write the functional agree. */
  lemma AdjRateIsFixRate(p: seq<real>, q: seq<real>, dt: real, dx: real, sqrt: real -> real)
    requires |p| == |q| && dt != 0.0
    ensures AdjRate(p, q, dt, dx, sqrt) == FixRate(p, q, dt, dx, sqrt)
  {
    AdjTermsScale(p, q, dt, dx, dx / Sq(dt), sqrt);
  }

  /** With a non-negative bin gap the rate is never negative. */
  lemma FixRateNonNegative(p: seq<real>, q: seq<real>, dt: real, dx: real, sqrt: real -> real)
    requires |p| == |q| && dt != 0.0 && dx >= 0.0
    ensures FixRate(p, q, dt, dx, sqrt) >= 0.0
  {
    DivNonNegative(dx, Sq(dt));
    TimesNonNegative(SqGapSum(p, q, sqrt), dx / Sq(dt));
  }

  lemma AdjRateNonNegative(p: seq<real>, q: seq<real>, dt: real, dx: real, sqrt: real -> real)
    requires |p| == |q| && dt != 0.0 && dx >= 0.0
    ensures AdjRate(p, q, dt, dx, sqrt) >= 0.0
  {
    AdjRateIsFixRate(p, q, dt, dx, sqrt);
    FixRateNonNegative(p, q, dt, dx, sqrt);
  }

  /** The squared gaps vanish exactly when the roots agree bin by bin. */
  lemma {:induction false} SqGapSumZero(p: seq<real>, q: seq<real>, sqrt: real -> real)
    requires |p| == |q|
    ensures SqGapSum(p, q, sqrt) == 0.0 <==> forall k :: 0 <= k < |p| ==> sqrt(p[k]) == sqrt(q[k])
  {
    if p != [] {
      SqGapSumZero(p[1..], q[1..], sqrt);
      var g := sqrt(q[0]) - sqrt(p[0]);
      if forall k :: 0 <= k < |p| ==> sqrt(p[k]) == sqrt(q[k]) {
        forall k | 0 <= k < |p| - 1 ensures sqrt(p[1..][k]) == sqrt(q[1..][k]) {
          assert p[1..][k] == p[k + 1] && q[1..][k] == q[k + 1];
        }
      }
      if SqGapSum(p, q, sqrt) == 0.0 {
        forall k | 0 <= k < |p| ensures sqrt(p[k]) == sqrt(q[k]) {
          if k > 0 {
            assert p[1..][k - 1] == p[k] && q[1..][k - 1] == q[k];
          }
        }
      }
    }
  }

  /** With bins of positive width the rate is zero exactly when the root
      densities agree in every bin; in particular equal densities give zero. */
  lemma FixRateZero(p: seq<real>, q: seq<real>, dt: real, dx: real, sqrt: real -> real)
    requires |p| == |q| && dt != 0.0 && dx > 0.0
    ensures FixRate(p, q, dt, dx, sqrt) == 0.0 <==> forall k :: 0 <= k < |p| ==> sqrt(p[k]) == sqrt(q[k])
  {
    SqGapSumZero(p, q, sqrt);
    assert dx / Sq(dt) > 0.0;
    TimesZero(SqGapSum(p, q, sqrt), dx / Sq(dt));
  }

  lemma AdjRateZero(p: seq<real>, q: seq<real>, dt: real, dx: real, sqrt: real -> real)
    requires |p| == |q| && dt != 0.0 && dx > 0.0
    ensures AdjRate(p, q, dt, dx, sqrt) == 0.0 <==> forall k :: 0 <= k < |p| ==> sqrt(p[k]) == sqrt(q[k])
  {
    AdjRateIsFixRate(p, q, dt, dx, sqrt);
    FixRateZero(p, q, dt, dx, sqrt);
  }

  /** Swapping before and after leaves the squared gaps unchanged. */
  lemma {:induction false} SqGapSumSymmetric(p: seq<real>, q: seq<real>, sqrt: real -> real)
    requires |p| == |q|
    ensures SqGapSum(p, q, sqrt) == SqGapSum(q, p, sqrt)
  {
    if p != [] {
      SqGapSumSymmetric(p[1..], q[1..], sqrt);
      assert Sq(sqrt(q[0]) - sqrt(p[0])) == Sq(sqrt(p[0]) - sqrt(q[0]));
    }
  }

  /** The rate does not depend on which density comes first. */
  lemma FixRateSymmetric(p: seq<real>, q: seq<real>, dt: real, dx: real, sqrt: real -> real)
    requires |p| == |q| && dt != 0.0
    ensures FixRate(p, q, dt, dx, sqrt) == FixRate(q, p, dt, dx, sqrt)
  {
    SqGapSumSymmetric(p, q, sqrt);
  }

  lemma AdjRateSymmetric(p: seq<real>, q: seq<real>, dt: real, dx: real, sqrt: real -> real)
    requires |p| == |q| && dt != 0.0
    ensures AdjRate(p, q, dt, dx, sqrt) == AdjRate(q, p, dt, dx, sqrt)
  {
    AdjRateIsFixRate(p, q, dt, dx, sqrt);
    AdjRateIsFixRate(q, p, dt, dx, sqrt);
    FixRateSymmetric(p, q, dt, dx, sqrt);
  }

  // ---------------------------------------------------------------------------
  // Two dimensions: the sums run over every cell of a grid.

  /** Two grids of the same shape. */
  ghost predicate SameShape(p: seq<seq<real>>, q: seq<seq<real>>) {
    |p| == |q| && forall a :: 0 <= a < |p| ==> |p[a]| == |q[a]|
  }

  /** sum over the cells of (sqrt q - sqrt p)^2. */
  function SqGapSum2(p: seq<seq<real>>, q: seq<seq<real>>, sqrt: real -> real): (r: real)
    requires SameShape(p, q)
    ensures r >= 0.0
  {
    if p == [] then 0.0 else SqGapSum(p[0], q[0], sqrt) + SqGapSum2(p[1..], q[1..], sqrt)
  }

  /** sum over the cells of ((sqrt q - sqrt p) / dt)^2 * area, as the adjacent 2-D driver computes it. */
  function AdjTerms2(p: seq<seq<real>>, q: seq<seq<real>>, dt: real, area: real, sqrt: real -> real): real
    requires SameShape(p, q) && dt != 0.0
  {
    if p == [] then 0.0 else AdjTerms(p[0], q[0], dt, area, sqrt) + AdjTerms2(p[1..], q[1..], dt, area, sqrt)
  }

  /** `4 * np.sum(((sqrt q - sqrt p) / dt)**2 * (dx1 * dx2))`. */
  function AdjRate2(p: seq<seq<real>>, q: seq<seq<real>>, dt: real, dx1: real, dx2: real, sqrt: real -> real): real
    requires SameShape(p, q) && dt != 0.0
  {
    4.0 * AdjTerms2(p, q, dt, Times(dx1, dx2), sqrt)
  }

  /** `4 * np.sum((sqrt q - sqrt p)**2) * ((dx * dy) / dt**2)`. */
  function FixRate2(p: seq<seq<real>>, q: seq<seq<real>>, dt: real, dx: real, dy: real, sqrt: real -> real): real
    requires SameShape(p, q) && dt != 0.0
  {
    4.0 * Times(SqGapSum2(p, q, sqrt), Times(dx, dy) / Sq(dt))
  }

  lemma {:induction false} AdjTerms2Scale(p: seq<seq<real>>, q: seq<seq<real>>, dt: real, area: real, c: real, sqrt: real -> real)
    requires SameShape(p, q) && dt != 0.0 && c == area / Sq(dt)
    ensures AdjTerms2(p, q, dt, area, sqrt) == Times(SqGapSum2(p, q, sqrt), c)
  {
    if p != [] {
      assert SameShape(p[1..], q[1..]) by {
        forall a | 0 <= a < |p| - 1 ensures |p[1..][a]| == |q[1..][a]| {
          assert p[1..][a] == p[a + 1] && q[1..][a] == q[a + 1];
        }
      }
      AdjTerms2Scale(p[1..], q[1..], dt, area, c, sqrt);
      AdjTermsScale(p[0], q[0], dt, area, c, sqrt);
      TimesDistrib(SqGapSum(p[0], q[0], sqrt), SqGapSum2(p[1..], q[1..], sqrt), c);
    }
  }

  /** The two ways the 2-D drivers write the functional agree. */
  lemma AdjRate2IsFixRate2(p: seq<seq<real>>, q: seq<seq<real>>, dt: real, dx1: real, dx2: real, sqrt: real -> real)
    requires SameShape(p, q) && dt != 0.0
    ensures AdjRate2(p, q, dt, dx1, dx2, sqrt) == FixRate2(p, q, dt, dx1, dx2, sqrt)
  {
    AdjTerms2Scale(p, q, dt, Times(dx1, dx2), Times(dx1, dx2) / Sq(dt), sqrt);
  }

  lemma FixRate2NonNegative(p: seq<seq<real>>, q: seq<seq<real>>, dt: real, dx: real, dy: real, sqrt: real -> real)
    requires SameShape(p, q) && dt != 0.0 && dx >= 0.0 && dy >= 0.0
    ensures FixRate2(p, q, dt, dx, dy, sqrt) >= 0.0
  {
    TimesNonNegative(dx, dy);
    DivNonNegative(Times(dx, dy), Sq(dt));
    TimesNonNegative(SqGapSum2(p, q, sqrt), Times(dx, dy) / Sq(dt));
  }

  lemma AdjRate2NonNegative(p: seq<seq<real>>, q: seq<seq<real>>, dt: real, dx1: real, dx2: real, sqrt: real -> real)
    requires SameShape(p, q) && dt != 0.0 && dx1 >= 0.0 && dx2 >= 0.0
    ensures AdjRate2(p, q, dt, dx1, dx2, sqrt) >= 0.0
  {
    AdjRate2IsFixRate2(p, q, dt, dx1, dx2, sqrt);
    FixRate2NonNegative(p, q, dt, dx1, dx2, sqrt);
  }

  /** The root densities p and q agree in every cell of p. */
  ghost predicate RootsAgree2(p: seq<seq<real>>, q: seq<seq<real>>, sqrt: real -> real)
    requires SameShape(p, q)
  {
    forall a, b :: 0 <= a < |p| && 0 <= b < |p[a]| ==> sqrt(p[a][b]) == sqrt(q[a][b])
  }

  /** The 2-D squared gaps vanish exactly when the roots agree cell by cell. */
  lemma {:induction false} SqGapSum2Zero(p: seq<seq<real>>, q: seq<seq<real>>, sqrt: real -> real)
    requires SameShape(p, q)
    ensures SqGapSum2(p, q, sqrt) == 0.0 <==>
      forall a, b :: 0 <= a < |p| && 0 <= b < |p[a]| ==> sqrt(p[a][b]) == sqrt(q[a][b])
  {
    if p != [] {
      assert SameShape(p[1..], q[1..]) by {
        forall a | 0 <= a < |p| - 1 ensures |p[1..][a]| == |q[1..][a]| {
          assert p[1..][a] == p[a + 1] && q[1..][a] == q[a + 1];
        }
      }
      SqGapSum2Zero(p[1..], q[1..], sqrt);
      SqGapSumZero(p[0], q[0], sqrt);
      if forall a, b :: 0 <= a < |p| && 0 <= b < |p[a]| ==> sqrt(p[a][b]) == sqrt(q[a][b]) {
        forall a, b | 0 <= a < |p| - 1 && 0 <= b < |p[1..][a]| ensures sqrt(p[1..][a][b]) == sqrt(q[1..][a][b]) {
          assert p[1..][a] == p[a + 1] && q[1..][a] == q[a + 1];
        }
      }
      if SqGapSum2(p, q, sqrt) == 0.0 {
        forall a, b | 0 <= a < |p| && 0 <= b < |p[a]| ensures sqrt(p[a][b]) == sqrt(q[a][b]) {
          if a > 0 {
            assert p[1..][a - 1] == p[a] && q[1..][a - 1] == q[a];
          }
        }
      }
    }
  }

  /** With cells of positive area the 2-D rate is zero exactly when the root
      densities agree in every cell. */
  lemma FixRate2Zero(p: seq<seq<real>>, q: seq<seq<real>>, dt: real, dx: real, dy: real, sqrt: real -> real)
    requires SameShape(p, q) && dt != 0.0 && dx > 0.0 && dy > 0.0
    ensures FixRate2(p, q, dt, dx, dy, sqrt) == 0.0 <==> RootsAgree2(p, q, sqrt)
  {
    SqGapSum2Zero(p, q, sqrt);
    TimesPositive(dx, dy);
    assert Times(dx, dy) / Sq(dt) > 0.0;
    TimesZero(SqGapSum2(p, q, sqrt), Times(dx, dy) / Sq(dt));
  }

  lemma AdjRate2Zero(p: seq<seq<real>>, q: seq<seq<real>>, dt: real, dx1: real, dx2: real, sqrt: real -> real)
    requires SameShape(p, q) && dt != 0.0 && dx1 > 0.0 && dx2 > 0.0
    ensures AdjRate2(p, q, dt, dx1, dx2, sqrt) == 0.0 <==> RootsAgree2(p, q, sqrt)
  {
    AdjRate2IsFixRate2(p, q, dt, dx1, dx2, sqrt);
    FixRate2Zero(p, q, dt, dx1, dx2, sqrt);
  }

  lemma {:induction false} SqGapSum2Symmetric(p: seq<seq<real>>, q: seq<seq<real>>, sqrt: real -> real)
    requires SameShape(p, q)
    ensures SqGapSum2(p, q, sqrt) == SqGapSum2(q, p, sqrt)
  {
    if p != [] {
      assert SameShape(p[1..], q[1..]) by {
        forall a | 0 <= a < |p| - 1 ensures |p[1..][a]| == |q[1..][a]| {
          assert p[1..][a] == p[a + 1] && q[1..][a] == q[a + 1];
        }
      }
      SqGapSum2Symmetric(p[1..], q[1..], sqrt);
      SqGapSumSymmetric(p[0], q[0], sqrt);
    }
  }

  lemma FixRate2Symmetric(p: seq<seq<real>>, q: seq<seq<real>>, dt: real, dx: real, dy: real, sqrt: real -> real)
    requires SameShape(p, q) && SameShape(q, p) && dt != 0.0
    ensures FixRate2(p, q, dt, dx, dy, sqrt) == FixRate2(q, p, dt, dx, dy, sqrt)
  {
    SqGapSum2Symmetric(p, q, sqrt);
  }

  lemma AdjRate2Symmetric(p: seq<seq<real>>, q: seq<seq<real>>, dt: real, dx1: real, dx2: real, sqrt: real -> real)
    requires SameShape(p, q) && dt != 0.0
    ensures AdjRate2(p, q, dt, dx1, dx2, sqrt) == AdjRate2(q, p, dt, dx1, dx2, sqrt)
  {
    assert SameShape(q, p);
    AdjRate2IsFixRate2(p, q, dt, dx1, dx2, sqrt);
    AdjRate2IsFixRate2(q, p, dt, dx1, dx2, sqrt);
    FixRate2Symmetric(p, q, dt, dx1, dx2, sqrt);
  }

  // ---------------------------------------------------------------------------
  // Rate series over consecutive densities.

  /** Densities that all have `bins` entries. */
  ghost predicate AllOfLength(ps: seq<seq<real>>, bins: nat) {
    forall t :: 0 <= t < |ps| ==> |ps[t]| == bins
  }

  /** `4 * np.sum(np.diff(sqrt(ps), axis=0)**2, axis=-1) * (dx / dt**2)`:
      entry t is the fixed-form rate from density t to density t + 1. */
  function RateSeries(ps: seq<seq<real>>, bins: nat, dt: real, dx: real, sqrt: real -> real): (r: seq<real>)
    requires |ps| >= 1 && AllOfLength(ps, bins) && dt != 0.0
    ensures |r| == |ps| - 1
    ensures forall t :: 0 <= t < |r| ==> r[t] == FixRate(ps[t], ps[t + 1], dt, dx, sqrt)
  {
    seq(|ps| - 1, t requires 0 <= t < |ps| - 1 => FixRate(ps[t], ps[t + 1], dt, dx, sqrt))
  }

  /** Every entry of a rate series is non-negative, and it is zero exactly
      where consecutive root densities agree. */
  lemma RateSeriesFacts(ps: seq<seq<real>>, bins: nat, dt: real, dx: real, sqrt: real -> real)
    requires |ps| >= 1 && AllOfLength(ps, bins) && dt != 0.0 && dx > 0.0
    ensures forall t :: 0 <= t < |ps| - 1 ==> RateSeries(ps, bins, dt, dx, sqrt)[t] >= 0.0
    ensures forall t :: 0 <= t < |ps| - 1 ==>
      (RateSeries(ps, bins, dt, dx, sqrt)[t] == 0.0 <==>
       forall k :: 0 <= k < bins ==> sqrt(ps[t][k]) == sqrt(ps[t + 1][k]))
  {
    forall t | 0 <= t < |ps| - 1
      ensures RateSeries(ps, bins, dt, dx, sqrt)[t] >= 0.0
      ensures RateSeries(ps, bins, dt, dx, sqrt)[t] == 0.0 <==>
              forall k :: 0 <= k < bins ==> sqrt(ps[t][k]) == sqrt(ps[t + 1][k])
    {
      FixRateNonNegative(ps[t], ps[t + 1], dt, dx, sqrt);
      FixRateZero(ps[t], ps[t + 1], dt, dx, sqrt);
    }
  }

  /** Grids that all have shape rows x cols. */
  ghost predicate AllOfShape(ps: seq<seq<seq<real>>>, rows: nat, cols: nat) {
    forall t :: 0 <= t < |ps| ==> |ps[t]| == rows && forall a :: 0 <= a < rows ==> |ps[t][a]| == cols
  }

  /** The 2-D rate series: entry t is the fixed-form rate from grid t to grid t + 1. */
  function RateSeries2(ps: seq<seq<seq<real>>>, rows: nat, cols: nat, dt: real, dx: real, dy: real, sqrt: real -> real): (r: seq<real>)
    requires |ps| >= 1 && AllOfShape(ps, rows, cols) && dt != 0.0
    ensures |r| == |ps| - 1
    ensures forall t :: 0 <= t < |r| ==> SameShape(ps[t], ps[t + 1]) && r[t] == FixRate2(ps[t], ps[t + 1], dt, dx, dy, sqrt)
  {
    seq(|ps| - 1, t requires 0 <= t < |ps| - 1 => FixRate2(ps[t], ps[t + 1], dt, dx, dy, sqrt))
  }

  /** Every entry of a 2-D rate series is non-negative, and zero exactly where
      consecutive root densities agree. */
  lemma RateSeries2Facts(ps: seq<seq<seq<real>>>, rows: nat, cols: nat, dt: real, dx: real, dy: real, sqrt: real -> real)
    requires |ps| >= 1 && AllOfShape(ps, rows, cols) && dt != 0.0 && dx > 0.0 && dy > 0.0
    ensures forall t :: 0 <= t < |ps| - 1 ==> RateSeries2(ps, rows, cols, dt, dx, dy, sqrt)[t] >= 0.0
    ensures forall t :: 0 <= t < |ps| - 1 ==>
      (RateSeries2(ps, rows, cols, dt, dx, dy, sqrt)[t] == 0.0 <==>
       RootsAgree2(ps[t], ps[t + 1], sqrt))
  {
    forall t | 0 <= t < |ps| - 1
      ensures RateSeries2(ps, rows, cols, dt, dx, dy, sqrt)[t] >= 0.0
      ensures RateSeries2(ps, rows, cols, dt, dx, dy, sqrt)[t] == 0.0 <==>
              RootsAgree2(ps[t], ps[t + 1], sqrt)
    {
      FixRate2NonNegative(ps[t], ps[t + 1], dt, dx, dy, sqrt);
      FixRate2Zero(ps[t], ps[t + 1], dt, dx, dy, sqrt);
    }
  }
}
