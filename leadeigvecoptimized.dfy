/** `lead_eigvec_cal_optimized(matrix_data)`: the leading eigenvector of
    each time slice, as in `lead_eigvec_cal`, with a different sign rule:
    the vector is negated when its positive components add up to less than
    the magnitude of the sum of its negative ones. */
module LeadEigvecOptimized {
  import opened Common
  import opened LeadEigvec

  /** The sign rule of `job_lead_eigvec_cal_optimized`. */
  function Balanced(v: seq<real>): (r: seq<real>)
    ensures r == v || r == Neg(v)
  {
    if Sum(Positives(v)) < Magnitude(Sum(Negatives(v))) then Neg(v) else v
  }

  lemma {:induction false} SumNeg(s: seq<real>)
    ensures Sum(Neg(s)) == -Sum(s)
  {
    if s != [] {
      assert Neg(s)[1..] == Neg(s[1..]);
      SumNeg(s[1..]);
    }
  }

  /** Negating turns the negative components into the positive ones. */
  lemma {:induction false} PositivesOfNeg(v: seq<real>)
    ensures Positives(Neg(v)) == Neg(Negatives(v))
  {
    if v != [] {
      assert Neg(v)[1..] == Neg(v[1..]);
      PositivesOfNeg(v[1..]);
      var w := Neg(v);
      assert Positives(w) == (if w[0] > 0.0 then [w[0]] else []) + Positives(w[1..]);
      assert Neg(Negatives(v)) == Neg(if v[0] < 0.0 then [v[0]] else []) + Neg(Negatives(v[1..]));
    }
  }

  /** Negating turns the positive components into the negative ones. */
  lemma {:induction false} NegativesOfNeg(v: seq<real>)
    ensures Negatives(Neg(v)) == Neg(Positives(v))
  {
    if v != [] {
      assert Neg(v)[1..] == Neg(v[1..]);
      NegativesOfNeg(v[1..]);
      var w := Neg(v);
      assert Negatives(w) == (if w[0] < 0.0 then [w[0]] else []) + Negatives(w[1..]);
      assert Neg(Positives(v)) == Neg(if v[0] > 0.0 then [v[0]] else []) + Neg(Positives(v[1..]));
    }
  }

  /** The components add up to the positive sum plus the negative sum. */
  lemma {:induction false} SumSplit(v: seq<real>)
    ensures Sum(v) == Sum(Positives(v)) + Sum(Negatives(v))
  {
    if v != [] {
      SumSplit(v[1..]);
      SumAppend(if v[0] > 0.0 then [v[0]] else [], Positives(v[1..]));
      SumAppend(if v[0] < 0.0 then [v[0]] else [], Negatives(v[1..]));
    }
  }

  /** The sum of the negative components is never positive. */
  lemma {:induction false} NegativesSum(v: seq<real>)
    ensures Sum(Negatives(v)) <= 0.0
  {
    if v != [] {
      NegativesSum(v[1..]);
      SumAppend(if v[0] < 0.0 then [v[0]] else [], Negatives(v[1..]));
    }
  }

  /** The sum of the positive components is never negative. */
  lemma {:induction false} PositivesSum(v: seq<real>)
    ensures Sum(Positives(v)) >= 0.0
  {
    if v != [] {
      PositivesSum(v[1..]);
      SumAppend(if v[0] > 0.0 then [v[0]] else [], Positives(v[1..]));
    }
  }

  /** The negation's positive sum is the magnitude of the original's
      negative sum, and the other way round. */
  lemma SumsOfNeg(v: seq<real>)
    ensures Sum(Positives(Neg(v))) == Magnitude(Sum(Negatives(v)))
    ensures Magnitude(Sum(Negatives(Neg(v)))) == Sum(Positives(v))
  {
    PositivesOfNeg(v);
    NegativesOfNeg(v);
    SumNeg(Negatives(v));
    SumNeg(Positives(v));
    NegativesSum(v);
    PositivesSum(v);
  }

  /** After the rule the positive sum is at least the magnitude of the
      negative sum, so the components add up to zero or more. */
  lemma BalancedSumNonNegative(v: seq<real>)
    ensures Sum(Positives(Balanced(v))) >= Magnitude(Sum(Negatives(Balanced(v))))
    ensures Sum(Balanced(v)) >= 0.0
  {
    var r := Balanced(v);
    SumsOfNeg(v);
    SumSplit(r);
    NegativesSum(r);
  }

  /** The rule is idempotent: a balanced vector is left alone. */
  lemma BalancedIdempotent(v: seq<real>)
    ensures Balanced(Balanced(v)) == Balanced(v)
  {
    BalancedSumNonNegative(v);
  }

  /** The rule does not depend on the sign the eigensolver happened to
      return, except on a tie between the two sums. */
  lemma BalancedSignFree(v: seq<real>)
    requires Sum(Positives(v)) != Magnitude(Sum(Negatives(v)))
    ensures Balanced(Neg(v)) == Balanced(v)
  {
    SumsOfNeg(v);
    assert Neg(Neg(v)) == v;
  }

  /** `job_lead_eigvec_cal_optimized` on an eigendecomposition. */
  function LeadingBalanced(e: Eig, n: nat): (r: Result<seq<real>>)
    requires Shaped(e, n)
    ensures r.Err? <==> n == 0
    ensures r.Ok? ==> |r.value| == n
    ensures r.Ok? ==> exists k: nat ::
      k < n && IsLeading(e, k) && (var c := Column(e.vectors, k); r.value == Balanced(c) && (r.value == c || r.value == Neg(c)))
  {
    var c :- LeadingColumn(e, n);
    Ok(Balanced(c))
  }

  /** `lead_eigvec_cal_optimized`: one vector per time slice, in time
      order, each with a non-negative component sum. */
  function LeadEigvecsOptimized(m: Array3, eigh: seq<seq<real>> -> Eig): (r: Result<seq<seq<real>>>)
    requires SquareSeries(m) && EighShaped(m, eigh)
    ensures r.Err? <==> m.n == 0 && m.w >= 1
    ensures r.Err? ==> r.error == EmptyArray
    ensures r.Ok? ==> |r.value| == m.w && forall i :: 0 <= i < m.w ==>
      Ok(r.value[i]) == LeadingBalanced(eigh(Slice(m, i)), m.n)
  {
    if m.n == 0 && m.w >= 1 then Err(EmptyArray)
    else Ok(seq(m.w, i requires 0 <= i < m.w => LeadingBalanced(eigh(Slice(m, i)), m.n).value))
  }

  /** Each output vector is the leading eigenvector of its slice or its
      negation, and its components add up to zero or more. */
  lemma OptimizedAreLeading(m: Array3, eigh: seq<seq<real>> -> Eig, i: nat)
    requires SquareSeries(m) && EighShaped(m, eigh) && LeadEigvecsOptimized(m, eigh).Ok? && i < m.w
    ensures var e := eigh(Slice(m, i));
      var o := LeadEigvecsOptimized(m, eigh).value[i];
      Sum(o) >= 0.0 &&
      exists k: nat :: IsLeading(e, k) && k < m.n && (var c := Column(e.vectors, k); o == c || o == Neg(c))
  {
    var e := eigh(Slice(m, i));
    assert Shaped(e, m.n);
    var r := LeadingBalanced(e, m.n);
    var k: nat :| k < m.n && IsLeading(e, k) && r.value == Balanced(Column(e.vectors, k));
    BalancedSumNonNegative(Column(e.vectors, k));
  }
}
