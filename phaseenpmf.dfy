/** `phase_en_pmf(sig, K, tau)`: the pmf of phase entropy.

    Each step of the second-order difference plot, the rise
    `Y[k] = sig[k + 2 tau] - sig[k + tau]` against the run
    `X[k] = sig[k + tau] - sig[k]`, gets the angle `arctan(Y / X)`, which
    three masked in-place additions move into the quadrant of (X, Y). The
    turn [0, 2 pi] is cut into K equal sectors; the weight of a sector is
    the sum of the angles strictly inside it, and the pmf is the weights
    over their total.

    `arctan` is a parameter; a NaN angle (from 0 / 0) is `None`. */
module PhaseEnPmf {
  import opened Common
  import opened Histogram
  import opened Entropy

  /** `np.pi`. */
  const Pi: real := 3.141592653589793

  /** What the quadrant lemmas need from the arctangent: values strictly
      between -pi/2 and pi/2, with the sign of the argument. */
  ghost predicate ArctanLike(arctan: real -> real) {
    forall v: real ::
      && -Pi / 2.0 < arctan(v) < Pi / 2.0
      && (v > 0.0 ==> arctan(v) > 0.0)
      && (v < 0.0 ==> arctan(v) < 0.0)
      && (v == 0.0 ==> arctan(v) == 0.0)
  }

  /** How many steps there are: `len(sig[2 tau:])`, the same for all three
      slices. */
  function Steps(len: nat, tau: nat): nat {
    if 2 * tau < len then len - 2 * tau else 0
  }

  /** `sig[2 tau:] - sig[tau:-tau]`. */
  function Rises(sig: seq<real>, tau: nat): (y: seq<real>)
    ensures |y| == Steps(|sig|, tau)
    ensures forall k :: 0 <= k < |y| ==> y[k] == sig[k + 2 * tau] - sig[k + tau]
  {
    seq(Steps(|sig|, tau), k requires 0 <= k < Steps(|sig|, tau) => sig[k + 2 * tau] - sig[k + tau])
  }

  /** `sig[tau:-tau] - sig[:-2 tau]`. */
  function Runs(sig: seq<real>, tau: nat): (x: seq<real>)
    ensures |x| == Steps(|sig|, tau)
    ensures forall k :: 0 <= k < |x| ==> x[k] == sig[k + tau] - sig[k]
  {
    seq(Steps(|sig|, tau), k requires 0 <= k < Steps(|sig|, tau) => sig[k + tau] - sig[k])
  }

  /** `np.arctan(y / x)`: a zero run divides to an infinity of the sign of
      the rise, whose arctangent is plus or minus pi/2, or to NaN when the
      rise is zero too. */
  function RawAngle(y: real, x: real, arctan: real -> real): Option<real> {
    if x != 0.0 then Some(arctan(y / x))
    else if y > 0.0 then Some(Pi / 2.0)
    else if y < 0.0 then Some(-Pi / 2.0)
    else None
  }

  /** Adding to an angle; NaN stays NaN. */
  function Plus(a: Option<real>, d: real): Option<real> {
    if a.Some? then Some(a.value + d) else None
  }

  function Sign(v: real): int {
    if v > 0.0 then 1 else if v < 0.0 then -1 else 0
  }

  /** `(Y < 0) & (X < 0)` and the like: the steps whose rise and run have
      the given signs. */
  function Mask(ys: seq<real>, xs: seq<real>, ySign: int, xSign: int): (m: seq<bool>)
    requires |ys| == |xs|
    ensures |m| == |ys| && forall i :: 0 <= i < |ys| ==> m[i] == (Sign(ys[i]) == ySign && Sign(xs[i]) == xSign)
  {
    seq(|ys|, i requires 0 <= i < |ys| => Sign(ys[i]) == ySign && Sign(xs[i]) == xSign)
  }

  /** `theta[mask] += delta`. */
  function Shifted(theta: seq<Option<real>>, mask: seq<bool>, delta: real): (r: seq<Option<real>>)
    requires |mask| == |theta|
    ensures |r| == |theta|
    ensures forall i :: 0 <= i < |theta| ==> r[i] == if mask[i] then Plus(theta[i], delta) else theta[i]
  {
    seq(|theta|, i requires 0 <= i < |theta| => if mask[i] then Plus(theta[i], delta) else theta[i])
  }

  /** The angle of one step after the three corrections: pi for a step
      down and back, 2 pi for a step down and forward, pi for a step up and
      back. */
  function Corrected(y: real, x: real, arctan: real -> real): Option<real> {
    var a := RawAngle(y, x, arctan);
    if y < 0.0 && x < 0.0 then Plus(a, Pi)
    else if y < 0.0 && x > 0.0 then Plus(a, 2.0 * Pi)
    else if y > 0.0 && x < 0.0 then Plus(a, Pi)
    else a
  }

  /** The corrected angle of every step. */
  function Angles(sig: seq<real>, tau: nat, arctan: real -> real): (theta: seq<Option<real>>)
    ensures |theta| == Steps(|sig|, tau)
  {
    var ys, xs := Rises(sig, tau), Runs(sig, tau);
    seq(|ys|, i requires 0 <= i < |ys| => Corrected(ys[i], xs[i], arctan))
  }

  /** `np.arctan(Y / X)` for every step. */
  function RawAngles(sig: seq<real>, tau: nat, arctan: real -> real): (theta: seq<Option<real>>)
    ensures |theta| == Steps(|sig|, tau)
  {
    var ys, xs := Rises(sig, tau), Runs(sig, tau);
    seq(|ys|, i requires 0 <= i < |ys| => RawAngle(ys[i], xs[i], arctan))
  }

  /** The three masked additions, one after the other, give the corrected
      angles: the masks never overlap. */
  lemma CorrectionsCompose(sig: seq<real>, tau: nat, arctan: real -> real)
    ensures var ys, xs := Rises(sig, tau), Runs(sig, tau);
      Shifted(Shifted(Shifted(RawAngles(sig, tau, arctan), Mask(ys, xs, -1, -1), Pi),
        Mask(ys, xs, -1, 1), 2.0 * Pi), Mask(ys, xs, 1, -1), Pi) == Angles(sig, tau, arctan)
  {
  }

  /** `np.linspace(0, 2 pi, K + 1)`: the sector boundaries. */
  function Boundaries(k: nat): (angs: seq<real>)
    requires k >= 1
    ensures |angs| == k + 1 && angs[0] == 0.0 && angs[k] == 2.0 * Pi && Increasing(angs)
  {
    Edges(0.0, 2.0 * Pi, k)
  }

  /** `(theta > lo) & (theta < hi)`: NaN compares false. */
  predicate InSector(a: Option<real>, lo: real, hi: real) {
    a.Some? && lo < a.value < hi
  }

  /** The angle is inside sector `n` of the boundaries `angs`. */
  predicate InSectorAt(a: Option<real>, angs: seq<real>, n: nat)
    requires n < |angs| - 1
  {
    InSector(a, angs[n], angs[n + 1])
  }

  /** `np.sum(theta[mask])` for the sector (lo, hi); never negative once the
      sector starts at or above zero. */
  function SectorSum(theta: seq<Option<real>>, lo: real, hi: real): (s: real)
    ensures lo >= 0.0 ==> s >= 0.0
    ensures lo >= 0.0 && (exists i :: 0 <= i < |theta| && InSector(theta[i], lo, hi)) ==> s > 0.0
  {
    if theta == [] then 0.0
    else
      assert forall i :: 1 <= i < |theta| ==> theta[1..][i - 1] == theta[i];
      (if InSector(theta[0], lo, hi) then theta[0].value else 0.0) + SectorSum(theta[1..], lo, hi)
  }

  /** `Si`: one sum per sector. */
  function SectorSums(theta: seq<Option<real>>, angs: seq<real>): (si: seq<real>)
    requires |angs| >= 1
    ensures |si| == |angs| - 1
    ensures forall n :: 0 <= n < |si| ==> si[n] == SectorSum(theta, angs[n], angs[n + 1])
  {
    seq(|angs| - 1, n requires 0 <= n < |angs| - 1 => SectorSum(theta, angs[n], angs[n + 1]))
  }

  /** `Si / np.sum(Si)`; a zero total gives NaN everywhere. */
  function Normalised(si: seq<real>): (r: Result<seq<real>>)
    ensures r.Ok? <==> Sum(si) != 0.0
    ensures r.Err? ==> r.error == NotFinite
    ensures r.Ok? ==> r.value == Scale(si, Sum(si))
  {
    if Sum(si) == 0.0 then Err(NotFinite) else Ok(Scale(si, Sum(si)))
  }

  /** What `phase_en_pmf` returns. */
  function PhaseEnPmfOf(sig: seq<real>, k: nat, tau: nat, arctan: real -> real): Result<seq<real>>
    requires k >= 1
  {
    Normalised(SectorSums(Angles(sig, tau, arctan), Boundaries(k)))
  }

  /** `theta[mask] += delta`, in place. */
  method AddWhere(theta: array<Option<real>>, mask: seq<bool>, delta: real)
    requires |mask| == theta.Length
    modifies theta
    ensures theta[..] == Shifted(old(theta[..]), mask, delta)
  {
    for i := 0 to theta.Length
      invariant forall j :: 0 <= j < i ==> theta[j] == Shifted(old(theta[..]), mask, delta)[j]
      invariant forall j :: i <= j < theta.Length ==> theta[j] == old(theta[j])
    {
      if mask[i] {
        theta[i] := Plus(theta[i], delta);
      }
    }
  }

  /** `phase_en_pmf`. The signal is longer than ten samples, K > 1 and
      tau > 0, as the source asserts. */
  method PhaseEnPmf(sig: seq<real>, k: int, tau: int, arctan: real -> real) returns (r: Result<seq<real>>)
    requires |sig| > 10 && k > 1 && tau > 0
    ensures r == PhaseEnPmfOf(sig, k, tau, arctan)
  {
    var ys, xs := Rises(sig, tau), Runs(sig, tau);
    var theta := new Option<real>[|ys|](i requires 0 <= i < |ys| => RawAngle(ys[i], xs[i], arctan));
    assert theta[..] == RawAngles(sig, tau, arctan);
    AddWhere(theta, Mask(ys, xs, -1, -1), Pi);
    AddWhere(theta, Mask(ys, xs, -1, 1), 2.0 * Pi);
    AddWhere(theta, Mask(ys, xs, 1, -1), Pi);
    CorrectionsCompose(sig, tau, arctan);
    var si := FillSectors(theta[..], Boundaries(k));
    var total := Sum(si);
    if total == 0.0 {
      r := Err(NotFinite);
    } else {
      r := Ok(Scale(si, total));
    }
  }

  /** The loop over sectors: `Si[n]` is the sum of the angles strictly
      inside sector n. */
  method FillSectors(angles: seq<Option<real>>, angs: seq<real>) returns (s: seq<real>)
    requires |angs| >= 1
    ensures s == SectorSums(angles, angs)
  {
    var k := |angs| - 1;
    var si := new real[k](_ => 0.0);
    for n := 0 to k
      invariant forall j :: 0 <= j < n ==> si[j] == SectorSum(angles, angs[j], angs[j + 1])
    {
      si[n] := SectorSum(angles, angs[n], angs[n + 1]);
    }
    s := si[..];
  }

  /** y / x has the sign of y times the sign of x. */
  lemma QuotientSign(y: real, x: real)
    requires x != 0.0
    ensures (y > 0.0 && x > 0.0) || (y < 0.0 && x < 0.0) ==> y / x > 0.0
    ensures (y > 0.0 && x < 0.0) || (y < 0.0 && x > 0.0) ==> y / x < 0.0
    ensures y == 0.0 ==> y / x == 0.0
  {
    if y > 0.0 && x < 0.0 {
      assert y / x == -(y / -x);
    } else if y < 0.0 && x > 0.0 {
      assert y / x == -(-y / x);
    } else if y < 0.0 && x < 0.0 {
      assert y / x == -y / -x;
    }
  }

  /** The corrections put every step into the quadrant of (run, rise):
      angles in (0, pi/2) up and forward, (pi/2, pi) up and back,
      (pi, 3 pi/2) down and back, (3 pi/2, 2 pi) down and forward. A
      vertical step is at pi/2 upwards but at -pi/2 downwards, a
      horizontal one at 0, and a step with no change at all is NaN. */
  lemma CorrectedQuadrants(y: real, x: real, arctan: real -> real)
    requires ArctanLike(arctan)
    ensures var a := Corrected(y, x, arctan);
      && (y > 0.0 && x > 0.0 ==> a.Some? && 0.0 < a.value < Pi / 2.0)
      && (y > 0.0 && x < 0.0 ==> a.Some? && Pi / 2.0 < a.value < Pi)
      && (y < 0.0 && x < 0.0 ==> a.Some? && Pi < a.value < 3.0 * Pi / 2.0)
      && (y < 0.0 && x > 0.0 ==> a.Some? && 3.0 * Pi / 2.0 < a.value < 2.0 * Pi)
      && (x == 0.0 && y > 0.0 ==> a == Some(Pi / 2.0))
      && (x == 0.0 && y < 0.0 ==> a == Some(-Pi / 2.0))
      && (y == 0.0 && x != 0.0 ==> a == Some(0.0))
      && (y == 0.0 && x == 0.0 ==> a == None)
  {
    if x != 0.0 {
      QuotientSign(y, x);
      assert -Pi / 2.0 < arctan(y / x) < Pi / 2.0;
    }
  }

  /** An angle inside some sector is strictly between 0 and 2 pi. */
  predicate Covered(a: Option<real>, angs: seq<real>) {
    exists n :: 0 <= n < |angs| - 1 && InSectorAt(a, angs, n)
  }

  lemma CoveredInTurn(a: Option<real>, k: nat)
    requires k >= 1 && Covered(a, Boundaries(k))
    ensures a.Some? && 0.0 < a.value < 2.0 * Pi
  {
    var angs := Boundaries(k);
    var n :| 0 <= n < k && InSectorAt(a, angs, n);
    assert angs[0] <= angs[n] && angs[n + 1] <= angs[k];
  }

  /** Steps without a rise, and vertical steps downwards, lie in no sector:
      they never contribute to the pmf. */
  lemma DroppedSteps(y: real, x: real, arctan: real -> real, k: nat)
    requires ArctanLike(arctan) && k >= 1
    requires y == 0.0 || (x == 0.0 && y < 0.0)
    ensures !Covered(Corrected(y, x, arctan), Boundaries(k))
  {
    CorrectedQuadrants(y, x, arctan);
    if Covered(Corrected(y, x, arctan), Boundaries(k)) {
      CoveredInTurn(Corrected(y, x, arctan), k);
    }
  }

  /** No angle is in two sectors, and an angle on a boundary is in none. */
  lemma SectorsDisjoint(a: Option<real>, angs: seq<real>, n: nat, m: nat)
    requires Increasing(angs) && n < |angs| - 1 && m < |angs| - 1
    ensures InSectorAt(a, angs, n) && InSectorAt(a, angs, m) ==> n == m
    ensures forall j :: 0 <= j < |angs| && a == Some(angs[j]) ==> !InSectorAt(a, angs, n)
  {
    forall j | 0 <= j < |angs| && a == Some(angs[j]) ensures !InSectorAt(a, angs, n) {
      if j <= n {
        assert angs[j] <= angs[n];
      } else {
        assert angs[n + 1] <= angs[j];
      }
    }
  }

  /** What one angle adds to each sector. */
  function Contribution(a: Option<real>, angs: seq<real>): (c: seq<real>)
    requires |angs| >= 1
    ensures |c| == |angs| - 1
    ensures forall n :: 0 <= n < |c| ==> c[n] == if InSectorAt(a, angs, n) then a.value else 0.0
  {
    seq(|angs| - 1, n requires 0 <= n < |angs| - 1 => if InSectorAt(a, angs, n) then a.value else 0.0)
  }

  /** What an angle adds to the total weight: itself when it is in a
      sector, nothing otherwise. */
  function Counted(a: Option<real>, angs: seq<real>): real {
    if Covered(a, angs) then a.value else 0.0
  }

  function CountedAll(theta: seq<Option<real>>, angs: seq<real>): (c: seq<real>)
    ensures |c| == |theta| && forall i :: 0 <= i < |theta| ==> c[i] == Counted(theta[i], angs)
  {
    seq(|theta|, i requires 0 <= i < |theta| => Counted(theta[i], angs))
  }

  /** A sequence that is zero except at `j` sums to its entry at `j`. */
  lemma {:induction false} SumSingle(s: seq<real>, j: nat)
    requires j < |s| && forall k :: 0 <= k < |s| && k != j ==> s[k] == 0.0
    ensures Sum(s) == s[j]
  {
    if j == 0 {
      SumAllZero(s[1..]);
    } else {
      SumSingle(s[1..], j - 1);
    }
  }

  lemma ContributionSum(a: Option<real>, angs: seq<real>)
    requires Increasing(angs) && |angs| >= 1
    ensures Sum(Contribution(a, angs)) == Counted(a, angs)
  {
    var c := Contribution(a, angs);
    if Covered(a, angs) {
      var n :| 0 <= n < |angs| - 1 && InSectorAt(a, angs, n);
      OnlySector(a, angs, n);
      SumSingle(c, n);
    } else {
      SumAllZero(c);
    }
  }

  lemma OnlySector(a: Option<real>, angs: seq<real>, n: nat)
    requires Increasing(angs) && n < |angs| - 1 && InSectorAt(a, angs, n)
    ensures forall m :: 0 <= m < |angs| - 1 && m != n ==> Contribution(a, angs)[m] == 0.0
  {
    forall m | 0 <= m < |angs| - 1 && m != n ensures !InSectorAt(a, angs, m) {
      SectorsDisjoint(a, angs, n, m);
    }
  }

  /** The sectors share the angles out: the total weight is the sum of the
      angles that lie in some sector, each counted once. */
  lemma {:induction false} SectorsPartition(theta: seq<Option<real>>, angs: seq<real>)
    requires Increasing(angs) && |angs| >= 1
    ensures Sum(SectorSums(theta, angs)) == Sum(CountedAll(theta, angs))
  {
    var si := SectorSums(theta, angs);
    if theta == [] {
      SumAllZero(si);
      SumAllZero(CountedAll(theta, angs));
    } else {
      var a, b := Contribution(theta[0], angs), SectorSums(theta[1..], angs);
      SumAdd(a, b, si);
      ContributionSum(theta[0], angs);
      SectorsPartition(theta[1..], angs);
      assert CountedAll(theta, angs)[1..] == CountedAll(theta[1..], angs);
    }
  }

  /** The total weight is positive exactly when some angle lies inside a
      sector, and zero otherwise. */
  lemma TotalWeight(theta: seq<Option<real>>, k: nat)
    requires k >= 1
    ensures var si := SectorSums(theta, Boundaries(k));
      && (forall n :: 0 <= n < k ==> si[n] >= 0.0)
      && Sum(si) >= 0.0
      && (Sum(si) != 0.0 <==> exists i :: 0 <= i < |theta| && Covered(theta[i], Boundaries(k)))
  {
    var angs := Boundaries(k);
    var counted := CountedAll(theta, angs);
    SectorsPartition(theta, angs);
    forall i | 0 <= i < |theta| ensures counted[i] >= 0.0 && (Covered(theta[i], angs) ==> counted[i] > 0.0) {
      if Covered(theta[i], angs) {
        CoveredInTurn(theta[i], k);
      }
    }
    if i :| 0 <= i < |theta| && Covered(theta[i], angs) {
      EntryPositiveSum(counted, i);
    } else {
      SumAllZero(counted);
    }
  }

  /** Non-negative weights over a non-zero total form a pmf. */
  lemma NormalisedIsPmf(si: seq<real>)
    requires NonNegative(si) && Sum(si) != 0.0
    ensures IsPmf(Scale(si, Sum(si)))
  {
    SumNonNegative(si);
    SharesInUnit(si);
    SumScale(si, Sum(si));
    DivSelf(Sum(si));
  }

  /** The pmf is defined exactly when some angle falls inside a sector; it
      then has one entry per sector, each in [0, 1], summing to one. */
  lemma PhaseEnPmfIsPmf(sig: seq<real>, k: nat, tau: nat, arctan: real -> real)
    requires k >= 1
    ensures var theta := Angles(sig, tau, arctan);
      PhaseEnPmfOf(sig, k, tau, arctan).Ok? <==>
        exists i :: 0 <= i < |theta| && Covered(theta[i], Boundaries(k))
    ensures PhaseEnPmfOf(sig, k, tau, arctan).Ok? ==>
      |PhaseEnPmfOf(sig, k, tau, arctan).value| == k && IsPmf(PhaseEnPmfOf(sig, k, tau, arctan).value)
  {
    var si := SectorSums(Angles(sig, tau, arctan), Boundaries(k));
    TotalWeight(Angles(sig, tau, arctan), k);
    if Sum(si) != 0.0 {
      NormalisedIsPmf(si);
    }
  }
}
