/** `phase_lock_matrix(data)`: for N signals of T samples, the N x N x T
    array whose entry (i, j, t) is the cosine of the difference between the
    instantaneous phases of signals i and j at time t.

    The unwrapped Hilbert phases are the input `phi` (one row per signal),
    and the cosine is a parameter. The source fills a zero-initialised
    array in place: for each i and each j from i on, the diagonal tube
    (i, i, :) is set to 1, and an off-diagonal tube is written at (i, j, :)
    and mirrored at (j, i, :). */
module PhaseLockMatrix {

  /** The asserts of the source: at least two signals, at least one sample,
      all of the same length. */
  ghost predicate Phases(phi: seq<seq<real>>) {
    |phi| >= 2 && |phi[0]| >= 1 && forall i :: 0 <= i < |phi| ==> |phi[i]| == |phi[0]|
  }

  /** What the finished array holds at (i, j, t): 1 on the diagonal, and
      off it the cosine of the phase difference taken with the smaller
      index first, since the loop only visits i < j and copies the same
      values to (j, i). */
  ghost function Entry(phi: seq<seq<real>>, cos: real -> real, i: nat, j: nat, t: nat): real
    requires Phases(phi) && i < |phi| && j < |phi| && t < |phi[0]|
  {
    if i == j then 1.0
    else if i < j then cos(phi[i][t] - phi[j][t])
    else cos(phi[j][t] - phi[i][t])
  }

  /** `np.cos(phi[i] - phi[j])`. */
  function CosDiff(phi: seq<seq<real>>, cos: real -> real, i: nat, j: nat): (d: seq<real>)
    requires i < |phi| && j < |phi| && |phi[i]| == |phi[j]|
    ensures |d| == |phi[i]| && forall t :: 0 <= t < |d| ==> d[t] == cos(phi[i][t] - phi[j][t])
  {
    seq(|phi[i]|, t requires 0 <= t < |phi[i]| => cos(phi[i][t] - phi[j][t]))
  }

  function Ones(n: nat): (o: seq<real>)
    ensures |o| == n && forall t :: 0 <= t < n ==> o[t] == 1.0
  {
    seq(n, _ => 1.0)
  }

  /** `m[i, j, :] = v`: the tube at (i, j) takes the values of v, and
      nothing else changes. */
  method SetTube(m: array3<real>, i: nat, j: nat, v: seq<real>)
    requires i < m.Length0 && j < m.Length1 && |v| == m.Length2
    modifies m
    ensures forall a, b, t :: 0 <= a < m.Length0 && 0 <= b < m.Length1 && 0 <= t < m.Length2 ==>
      m[a, b, t] == if a == i && b == j then v[t] else old(m[a, b, t])
  {
    for t := 0 to |v|
      invariant forall a, b, s :: 0 <= a < m.Length0 && 0 <= b < m.Length1 && 0 <= s < m.Length2 ==>
        m[a, b, s] == if a == i && b == j && s < t then v[s] else old(m[a, b, s])
    {
      m[i, j, t] := v[t];
    }
  }

  /** Which tubes are written once the outer loop is at row i and the inner
      loop at column j: every row and every column before i (row b < i wrote
      (b, a) and mirrored it to (a, b)), and row i and column i up to j. */
  predicate Written(i: nat, j: nat, a: nat, b: nat) {
    a < i || b < i || (a == i && b < j) || (b == i && a < j)
  }

  /** `phase_lock_matrix`: every entry of the N x N x T result is written;
      the diagonal is 1, the matrix is symmetric in its first two indices,
      and above the diagonal entry (i, j, t) is cos(phi[i][t] - phi[j][t]). */
  method PhaseLockMatrix(phi: seq<seq<real>>, cos: real -> real) returns (m: array3<real>)
    requires Phases(phi)
    ensures fresh(m) && m.Length0 == |phi| && m.Length1 == |phi| && m.Length2 == |phi[0]|
    ensures forall i, j, t :: 0 <= i < |phi| && 0 <= j < |phi| && 0 <= t < |phi[0]| ==>
      m[i, j, t] == Entry(phi, cos, i, j, t)
    ensures forall i, t :: 0 <= i < |phi| && 0 <= t < |phi[0]| ==> m[i, i, t] == 1.0
    ensures forall i, j, t :: 0 <= i < |phi| && 0 <= j < |phi| && 0 <= t < |phi[0]| ==> m[i, j, t] == m[j, i, t]
    ensures forall i, j, t :: 0 <= i < j < |phi| && 0 <= t < |phi[0]| ==> m[i, j, t] == cos(phi[i][t] - phi[j][t])
  {
    var n, len := |phi|, |phi[0]|;
    m := new real[n, n, len]((_, _, _) => 0.0);
    for i := 0 to n
      invariant forall a, b, t :: 0 <= a < n && 0 <= b < n && 0 <= t < len ==>
        m[a, b, t] == if a < i || b < i then Entry(phi, cos, a, b, t) else 0.0
    {
      for j := i to n
        invariant forall a, b, t :: 0 <= a < n && 0 <= b < n && 0 <= t < len ==>
          m[a, b, t] == if Written(i, j, a, b) then Entry(phi, cos, a, b, t) else 0.0
      {
        if i == j {
          SetTube(m, i, j, Ones(len));
        } else {
          var d := CosDiff(phi, cos, i, j);
          SetTube(m, i, j, d);
          SetTube(m, j, i, d);
        }
      }
    }
  }

  /** Cosine is even. */
  ghost predicate EvenLike(cos: real -> real) {
    forall x :: cos(-x) == cos(x)
  }

  /** Below the diagonal the source stores cos(phi[j] - phi[i]); for an even
      cosine that is cos(phi[i] - phi[j]), so every off-diagonal entry is the
      cosine of the difference in either order. */
  lemma EntryIsCosDiff(phi: seq<seq<real>>, cos: real -> real, i: nat, j: nat, t: nat)
    requires Phases(phi) && EvenLike(cos) && i < |phi| && j < |phi| && i != j && t < |phi[0]|
    ensures Entry(phi, cos, i, j, t) == cos(phi[i][t] - phi[j][t])
    ensures Entry(phi, cos, i, j, t) == cos(phi[j][t] - phi[i][t])
  {
    assert phi[j][t] - phi[i][t] == -(phi[i][t] - phi[j][t]);
    assert cos(-(phi[i][t] - phi[j][t])) == cos(phi[i][t] - phi[j][t]);
  }

  /** Two signals whose phases agree at time t are locked there: the entry
      is cos(0), which is 1 for a cosine. */
  lemma LockedSignals(phi: seq<seq<real>>, cos: real -> real, i: nat, j: nat, t: nat)
    requires Phases(phi) && cos(0.0) == 1.0 && i < |phi| && j < |phi| && t < |phi[0]|
    requires phi[i][t] == phi[j][t]
    ensures Entry(phi, cos, i, j, t) == 1.0
  {
  }

  /** With a cosine bounded by one, every entry lies in [-1, 1], with 1 on
      the diagonal. */
  lemma EntryBounded(phi: seq<seq<real>>, cos: real -> real, i: nat, j: nat, t: nat)
    requires Phases(phi) && i < |phi| && j < |phi| && t < |phi[0]|
    requires forall x :: -1.0 <= cos(x) <= 1.0
    ensures -1.0 <= Entry(phi, cos, i, j, t) <= 1.0
  {
  }
}
