/** `lead_eigvec_cal(matrix_data)`: for each time slice of an N x N x T
    array, the eigenvector of the eigenvalue with the largest magnitude,
    with its sign fixed by a rule on its positive components.

    The eigendecomposition (`scipy.linalg.eigh`) is a parameter: it maps a
    slice to its eigenvalues and to the matrix whose columns are the
    eigenvectors. The parallel fan-out over slices is a map in time order. */
module LeadEigvec {
  import opened Common
  import opened Entropy

  function Magnitude(x: real): real { if x < 0.0 then -x else x }

  /** `np.argmax(np.abs(values))`: the first index of largest magnitude. */
  function ArgMaxAbs(values: seq<real>): (k: nat)
    requires |values| >= 1
    ensures k < |values|
    ensures forall j :: 0 <= j < |values| ==> Magnitude(values[j]) <= Magnitude(values[k])
    ensures forall j :: 0 <= j < k ==> Magnitude(values[j]) < Magnitude(values[k])
  {
    if |values| == 1 then 0
    else
      var k := ArgMaxAbs(values[..|values| - 1]);
      if Magnitude(values[|values| - 1]) > Magnitude(values[k]) then |values| - 1 else k
  }

  /** What `eigh` returns for one slice. */
  datatype Eig = Eig(values: seq<real>, vectors: seq<seq<real>>)

  /** n eigenvalues and an n x n matrix of eigenvectors (one per column). */
  ghost predicate Shaped(e: Eig, n: nat) {
    |e.values| == n && |e.vectors| == n && forall r :: 0 <= r < n ==> |e.vectors[r]| == n
  }

  /** `vectors[:, k]`. */
  function Column(vectors: seq<seq<real>>, k: nat): (c: seq<real>)
    requires forall r :: 0 <= r < |vectors| ==> k < |vectors[r]|
    ensures |c| == |vectors| && forall r :: 0 <= r < |c| ==> c[r] == vectors[r][k]
  {
    seq(|vectors|, r requires 0 <= r < |vectors| => vectors[r][k])
  }

  /** `-1 * v`. */
  function Neg(v: seq<real>): (w: seq<real>)
    ensures |w| == |v| && forall k :: 0 <= k < |v| ==> w[k] == -v[k]
  {
    seq(|v|, k requires 0 <= k < |v| => -v[k])
  }

  /** `v[v > 0]`, in order. */
  function Positives(v: seq<real>): (p: seq<real>)
    ensures |p| <= |v|
    ensures forall x :: x in p <==> x in v && x > 0.0
  {
    if v == [] then []
    else (if v[0] > 0.0 then [v[0]] else []) + Positives(v[1..])
  }

  /** `v[v < 0]`, in order. */
  function Negatives(v: seq<real>): (p: seq<real>)
    ensures |p| <= |v|
    ensures forall x :: x in p <==> x in v && x < 0.0
  {
    if v == [] then []
    else (if v[0] < 0.0 then [v[0]] else []) + Negatives(v[1..])
  }

  /** `np.mean(s)` of a non-empty array. */
  function Mean(s: seq<real>): real
    requires |s| >= 1
  {
    Sum(s) / (|s| as real)
  }

  /** The sign rule of `job_lead_eigvec_cal`, branch by branch: a vector with
      no positive component is kept; one whose positive components average
      more than one half is negated; otherwise it is negated when the
      fraction of positive components equal to one half is non-zero and the
      positive sum exceeds its own negation. */
  function SignRule(v: seq<real>): (r: seq<real>)
    ensures r == v || r == Neg(v)
  {
    var pos := Positives(v);
    if |pos| == 0 then v
    else if Mean(pos) > 0.5 then Neg(v)
    else if Mean(Indicator(pos, 0.5)) != 0.0 && Sum(pos) > -Sum(pos) then Neg(v)
    else v
  }

  /** A non-empty sum of positive terms is positive. */
  lemma {:induction false} SumPositive(s: seq<real>)
    requires |s| >= 1 && forall x :: x in s ==> x > 0.0
    ensures Sum(s) > 0.0
  {
    if |s| > 1 {
      assert forall x :: x in s[1..] ==> x in s;
      SumPositive(s[1..]);
    }
    assert s[0] in s;
  }

  /** The second test of the last branch always passes: once there are
      positive components, their sum exceeds its negation. */
  lemma SecondConjunctHolds(v: seq<real>)
    requires |Positives(v)| >= 1
    ensures Sum(Positives(v)) > -Sum(Positives(v))
  {
    SumPositive(Positives(v));
  }

  /** The mean of `pos == 0.5` is non-zero exactly when one half is a
      component of v (one half being positive, it is then among `pos`). */
  lemma HalfTest(v: seq<real>)
    requires |Positives(v)| >= 1
    ensures Mean(Indicator(Positives(v), 0.5)) != 0.0 <==> 0.5 in v
  {
    var pos := Positives(v);
    assert 0.5 in v <==> 0.5 in pos;
    MatchesMean(pos, 0.5);
  }

  /** The mean of `s == x` is non-zero exactly when x is in s. */
  lemma MatchesMean(s: seq<real>, x: real)
    requires |s| >= 1
    ensures Mean(Indicator(s, x)) != 0.0 <==> x in s
  {
    MatchesSum(s, x);
    var m := Indicator(s, x);
    assert (Sum(m) / (|s| as real)) * (|s| as real) == Sum(m);
  }

  /** The count of matches is non-zero exactly when there is one. */
  lemma MatchesSum(s: seq<real>, x: real)
    ensures Sum(Indicator(s, x)) != 0.0 <==> x in s
  {
    var m := Indicator(s, x);
    if x in s {
      var k :| 0 <= k < |s| && s[k] == x;
      EntryAtMostSum(m, k);
    } else {
      SumAllZero(m);
    }
  }

  /** The rule in one line: the vector is negated exactly when its positive
      components average more than one half, or one half is a component;
      otherwise it is returned unchanged. */
  lemma SignRuleFlips(v: seq<real>)
    ensures SignRule(v) == if (|Positives(v)| >= 1 && Mean(Positives(v)) > 0.5) || 0.5 in v then Neg(v) else v
  {
    var pos := Positives(v);
    if 0.5 in v {
      assert 0.5 in pos;
    }
    if |pos| >= 1 {
      SecondConjunctHolds(v);
      HalfTest(v);
    }
  }

  /** A vector with no positive component comes back unchanged. */
  lemma NoPositivesUnchanged(v: seq<real>)
    requires forall k :: 0 <= k < |v| ==> v[k] <= 0.0
    ensures SignRule(v) == v
  {
    if |Positives(v)| >= 1 {
      assert Positives(v)[0] in Positives(v);
      assert false;
    }
  }

  /** `np.real(vectors[:, np.argmax(np.abs(values))])`: the column of the
      first eigenvalue of largest magnitude. `np.argmax` over no eigenvalues
      raises. */
  function LeadingColumn(e: Eig, n: nat): (r: Result<seq<real>>)
    requires Shaped(e, n)
    ensures r.Err? <==> n == 0
    ensures r.Err? ==> r.error == EmptyArray
    ensures r.Ok? ==> |r.value| == n && exists k: nat :: k < n && IsLeading(e, k) && r.value == Column(e.vectors, k)
  {
    if n == 0 then Err(EmptyArray)
    else Ok(Column(e.vectors, ArgMaxAbs(e.values)))
  }

  /** `job_lead_eigvec_cal` on an eigendecomposition: the leading column,
      sign-fixed. */
  function LeadingVector(e: Eig, n: nat): (r: Result<seq<real>>)
    requires Shaped(e, n)
    ensures r.Err? <==> n == 0
    ensures r.Ok? ==> |r.value| == n
    ensures r.Ok? ==> exists k: nat ::
      k < n && IsLeading(e, k) && (var c := Column(e.vectors, k); r.value == SignRule(c) && (r.value == c || r.value == Neg(c)))
  {
    var c :- LeadingColumn(e, n);
    Ok(SignRule(c))
  }

  /** Column k belongs to the first eigenvalue of largest magnitude. */
  ghost predicate IsLeading(e: Eig, k: nat) {
    && k < |e.values|
    && (forall j :: 0 <= j < |e.values| ==> Magnitude(e.values[j]) <= Magnitude(e.values[k]))
    && (forall j :: 0 <= j < k ==> Magnitude(e.values[j]) < Magnitude(e.values[k]))
  }

  /** Only one index is the first of largest magnitude. */
  lemma LeadingUnique(e: Eig, k: nat, k': nat)
    requires IsLeading(e, k) && IsLeading(e, k')
    ensures k == k'
  {
    assert Magnitude(e.values[k]) == Magnitude(e.values[k']);
  }

  /** A square N x N x T array, as `at[row][col][time]`. */
  ghost predicate SquareSeries(m: Array3) {
    m.Valid() && m.n == m.t
  }

  /** `matrix[:, :, i]`. */
  function Slice(m: Array3, i: nat): (s: seq<seq<real>>)
    requires SquareSeries(m) && i < m.w
    ensures |s| == m.n && forall r :: 0 <= r < m.n ==> |s[r]| == m.n
    ensures forall r, c :: 0 <= r < m.n && 0 <= c < m.n ==> s[r][c] == m.at[r][c][i]
  {
    seq(m.n, r requires 0 <= r < m.n => seq(m.n, c requires 0 <= c < m.n => m.at[r][c][i]))
  }

  /** Every slice's eigendecomposition has the slice's size. */
  ghost predicate EighShaped(m: Array3, eigh: seq<seq<real>> -> Eig)
    requires SquareSeries(m)
  {
    forall i :: 0 <= i < m.w ==> Shaped(eigh(Slice(m, i)), m.n)
  }

  /** `lead_eigvec_cal`: one vector per time slice, in time order; an empty
      N fails as soon as there is a slice to take. */
  function LeadEigvecs(m: Array3, eigh: seq<seq<real>> -> Eig): (r: Result<seq<seq<real>>>)
    requires SquareSeries(m) && EighShaped(m, eigh)
    ensures r.Err? <==> m.n == 0 && m.w >= 1
    ensures r.Err? ==> r.error == EmptyArray
    ensures r.Ok? ==> |r.value| == m.w && forall i :: 0 <= i < m.w ==>
      Ok(r.value[i]) == LeadingVector(eigh(Slice(m, i)), m.n)
  {
    if m.n == 0 && m.w >= 1 then Err(EmptyArray)
    else Ok(seq(m.w, i requires 0 <= i < m.w => LeadingVector(eigh(Slice(m, i)), m.n).value))
  }

  /** Each output vector is the leading eigenvector of its slice or its
      negation. */
  lemma LeadEigvecsAreLeading(m: Array3, eigh: seq<seq<real>> -> Eig, i: nat)
    requires SquareSeries(m) && EighShaped(m, eigh) && LeadEigvecs(m, eigh).Ok? && i < m.w
    ensures var e := eigh(Slice(m, i));
      exists k: nat :: IsLeading(e, k) && k < m.n &&
        var c := Column(e.vectors, k);
        LeadEigvecs(m, eigh).value[i] == c || LeadEigvecs(m, eigh).value[i] == Neg(c)
  {
    var e := eigh(Slice(m, i));
    assert Shaped(e, m.n);
    var r := LeadingVector(e, m.n);
    var k: nat :| k < m.n && IsLeading(e, k) && r.value == SignRule(Column(e.vectors, k));
  }
}
