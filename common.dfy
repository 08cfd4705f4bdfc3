/** Values, errors, arrays and sums shared by every module of the model.

    numpy arrays of float64 are modelled as sequences of exact reals; a Python
    exception raised inside numpy or by indexing becomes an `Err` carrying the
    kind of failure, and a NaN or infinite float becomes `Err(NotFinite)`. */
module Common {

  datatype Option<+T> = None | Some(value: T)

  /** The failures the routines can run into. */
  datatype Error =
    | IndexOutOfRange     // IndexError: an index past the end of an axis
    | EmptyArray          // ValueError: a reduction (min, max, argmax, zip) over nothing
    | BadWindow           // ValueError: window longer than the series, negative, or a zero stride
    | NonPositiveBins     // ValueError: a histogram asked for fewer than one bin
    | InvertedRange       // ValueError: a histogram range whose minimum exceeds its maximum
    | InfiniteBinCount    // OverflowError: a bin rule over zero samples converts an infinity to int
    | NonPositiveBase     // ValueError: scipy.stats.entropy given a base that is not positive
    | LengthMismatch      // ValueError: histogram2d over coordinate arrays of unequal length
    | NotFinite           // a NaN or an infinity in the result (0/0, x/0)
    | MissingRate         // TypeError: a driver unpacks a rate that came back as None

  datatype Result<+T> = Ok(value: T) | Err(error: Error) {
    predicate IsFailure() { Err? }
    function PropagateFailure<U>(): Result<U> requires Err? { Err(error) }
    function Extract(): T requires Ok? { value }
  }

  /** Python's indexing rule for an axis of length `n`: `-n <= i < n`, negatives count from the end. */
  function PyIndex(i: int, n: nat): (r: Result<nat>)
    ensures r.Ok? <==> -(n as int) <= i < n
    ensures r.Ok? ==> r.value < n && (if i >= 0 then r.value == i else r.value == i + n)
  {
    if 0 <= i < n then Ok(i) else if -(n as int) <= i < 0 then Ok(i + n) else Err(IndexOutOfRange)
  }

  /** A T x W float array (`at[t][w]`), with its shape kept beside the data as numpy does. */
  datatype Array2 = Array2(rows: nat, cols: nat, at: seq<seq<real>>) {
    ghost predicate Valid() {
      |at| == rows && forall r :: 0 <= r < rows ==> |at[r]| == cols
    }

    /** `(at[a, 0], at[b, 0])`, or nothing when there is no first column to read. */
    function Stamps(a: nat, b: nat): (s: Option<(real, real)>)
      requires Valid() && a < rows && b < rows
      ensures s.Some? <==> cols >= 1
      ensures s.Some? ==> s.value == (at[a][0], at[b][0])
    {
      if cols == 0 then None else Some((at[a][0], at[b][0]))
    }
  }

  /** An N x T x W float array (`at[n][t][w]`): N series, T windows of W samples each. */
  datatype Array3 = Array3(n: nat, t: nat, w: nat, at: seq<seq<seq<real>>>) {
    ghost predicate Valid() {
      && |at| == n
      && (forall c :: 0 <= c < n ==> |at[c]| == t)
      && (forall c, i :: 0 <= c < n && 0 <= i < t ==> |at[c][i]| == w)
    }

    /** `at[:, i, :]` flattened row by row: the N x W samples of window `i`. */
    function Window(i: nat): (s: seq<real>)
      requires Valid() && i < t
      ensures |s| == n * w
    {
      FlattenRows(at, i, w)
    }

    /** Window `i` holds exactly the samples `at[c][i][j]`. */
    lemma WindowMembers(i: nat)
      requires Valid() && i < t
      ensures forall x :: x in Window(i) <==> exists c, j :: 0 <= c < n && 0 <= j < w && at[c][i][j] == x
    {
      FlattenRowsMembers(at, i, w);
    }
  }

  /** The concatenation of `blocks[c][i]` for every c, each a block of `w` samples. */
  function FlattenRows(blocks: seq<seq<seq<real>>>, i: nat, w: nat): (s: seq<real>)
    requires forall c :: 0 <= c < |blocks| ==> i < |blocks[c]| && |blocks[c][i]| == w
    ensures |s| == |blocks| * w
  {
    if blocks == [] then [] else blocks[0][i] + FlattenRows(blocks[1..], i, w)
  }

  /** The flattened rows hold exactly the samples of the blocks' rows `i`. */
  lemma {:induction false} FlattenRowsMembers(blocks: seq<seq<seq<real>>>, i: nat, w: nat)
    requires forall c :: 0 <= c < |blocks| ==> i < |blocks[c]| && |blocks[c][i]| == w
    ensures forall x :: x in FlattenRows(blocks, i, w) <==> exists c, j :: 0 <= c < |blocks| && 0 <= j < w && blocks[c][i][j] == x
  {
    if blocks != [] {
      var rest := FlattenRows(blocks[1..], i, w);
      FlattenRowsMembers(blocks[1..], i, w);
      forall x ensures x in rest <==> exists c, j :: 1 <= c < |blocks| && 0 <= j < w && blocks[c][i][j] == x {
        if x in rest {
          var c, j :| 0 <= c < |blocks| - 1 && 0 <= j < w && blocks[1..][c][i][j] == x;
          assert blocks[c + 1][i][j] == x;
        }
        if exists c, j :: 1 <= c < |blocks| && 0 <= j < w && blocks[c][i][j] == x {
          var c, j :| 1 <= c < |blocks| && 0 <= j < w && blocks[c][i][j] == x;
          assert blocks[1..][c - 1][i][j] == x;
        }
      }
    }
  }

  /** The natural number `n` as a real, built by counting up. */
  function Real(n: nat): (r: real)
    ensures r >= 0.0 && (n >= 1 ==> r >= 1.0)
  {
    if n == 0 then 0.0 else Real(n - 1) + 1.0
  }

  lemma {:induction false} RealIsCast(n: nat)
    ensures Real(n) == n as real
  {
    if n > 0 {
      RealIsCast(n - 1);
    }
  }

  function Sum(s: seq<real>): real {
    if s == [] then 0.0 else s[0] + Sum(s[1..])
  }

  /** A numpy ufunc (`np.cos`, `x**0.5`) applied entry by entry. */
  function Apply(s: seq<real>, f: real -> real): (r: seq<real>)
    ensures |r| == |s| && forall k :: 0 <= k < |s| ==> r[k] == f(s[k])
  {
    seq(|s|, k requires 0 <= k < |s| => f(s[k]))
  }

  /** `s == x` as an array of ones and zeros. */
  function Indicator<T(==)>(s: seq<T>, x: T): (r: seq<real>)
    ensures |r| == |s| && forall k :: 0 <= k < |s| ==> r[k] == if s[k] == x then 1.0 else 0.0
  {
    seq(|s|, k requires 0 <= k < |s| => if s[k] == x then 1.0 else 0.0)
  }

  /** `np.zeros(n)`. */
  function Zeros(n: nat): (z: seq<real>)
    ensures |z| == n && Sum(z) == 0.0
    ensures forall k :: 0 <= k < n ==> z[k] == 0.0
  {
    if n == 0 then [] else [0.0] + Zeros(n - 1)
  }

  lemma {:induction false} SumNonNegative(s: seq<real>)
    requires forall k :: 0 <= k < |s| ==> s[k] >= 0.0
    ensures Sum(s) >= 0.0
  {
    if s != [] {
      SumNonNegative(s[1..]);
    }
  }

  /** A sum of non-negative terms is zero only when every term is. */
  lemma {:induction false} SumZeroOnlyIfAllZero(s: seq<real>)
    requires forall k :: 0 <= k < |s| ==> s[k] >= 0.0
    requires Sum(s) == 0.0
    ensures forall k :: 0 <= k < |s| ==> s[k] == 0.0
  {
    if s != [] {
      SumNonNegative(s[1..]);
      SumZeroOnlyIfAllZero(s[1..]);
      forall k | 1 <= k < |s| ensures s[k] == 0.0 {
        assert s[k] == s[1..][k - 1];
      }
    }
  }

  lemma {:induction false} SumAllZero(s: seq<real>)
    requires forall k :: 0 <= k < |s| ==> s[k] == 0.0
    ensures Sum(s) == 0.0
  {
    if s != [] {
      SumAllZero(s[1..]);
    }
  }

  lemma {:induction false} SumAppend(a: seq<real>, b: seq<real>)
    ensures Sum(a + b) == Sum(a) + Sum(b)
  {
    if a == [] {
      assert a + b == b;
    } else {
      assert (a + b)[1..] == a[1..] + b;
      SumAppend(a[1..], b);
    }
  }

  /** Adding one to entry `k` of a count vector adds one to its total. */
  lemma {:induction false} SumIncrement(c: seq<real>, k: nat)
    requires k < |c|
    ensures Sum(c[k := c[k] + 1.0]) == Sum(c) + 1.0
  {
    if k > 0 {
      assert c[k := c[k] + 1.0][1..] == c[1..][k - 1 := c[1..][k - 1] + 1.0];
      SumIncrement(c[1..], k - 1);
    } else {
      assert c[k := c[k] + 1.0][1..] == c[1..];
    }
  }

  /** Every entry of `c` divided by `d`. */
  function Scale(c: seq<real>, d: real): (r: seq<real>)
    requires d != 0.0
    ensures |r| == |c| && forall k :: 0 <= k < |c| ==> r[k] == c[k] / d
  {
    if c == [] then [] else [c[0] / d] + Scale(c[1..], d)
  }

  lemma {:induction false} SumScale(c: seq<real>, d: real)
    requires d != 0.0
    ensures Sum(Scale(c, d)) == Sum(c) / d
  {
    if c != [] {
      assert Scale(c, d)[1..] == Scale(c[1..], d);
      SumScale(c[1..], d);
      DivAdd(c[0], Sum(c[1..]), d);
    }
  }

  /** Summing entries that agree pointwise gives the same total. */
  lemma {:induction false} SumPointwise(a: seq<real>, b: seq<real>)
    requires |a| == |b|
    requires forall k :: 0 <= k < |a| ==> a[k] == b[k]
    ensures Sum(a) == Sum(b)
  {
    assert a == b;
  }

  /** Summing entry by entry: the total of `a + b` is the sum of the totals. */
  lemma {:induction false} SumAdd(a: seq<real>, b: seq<real>, c: seq<real>)
    requires |a| == |b| == |c|
    requires forall k :: 0 <= k < |c| ==> c[k] == a[k] + b[k]
    ensures Sum(c) == Sum(a) + Sum(b)
  {
    if c != [] {
      SumAdd(a[1..], b[1..], c[1..]);
    }
  }

  /** Dividing by one changes nothing. */
  lemma {:induction false} ScaleByOne(c: seq<real>)
    ensures Scale(c, 1.0) == c
  {
    if c != [] {
      ScaleByOne(c[1..]);
    }
  }

  /** The sum of `n` copies of `v`. */
  lemma {:induction false} SumConstant(s: seq<real>, v: real)
    requires forall k :: 0 <= k < |s| ==> s[k] == v
    ensures Sum(s) == (|s| as real) * v
  {
    if s != [] {
      SumConstant(s[1..], v);
    }
  }

  /** A count over (width x scale), times the width, is the count over the scale. */
  lemma CancelWidth(n: real, db: real, s: real)
    requires db > 0.0 && s > 0.0
    ensures (n / (db * s)) * db == n / s
  {
    assert n / (db * s) == (n / s) / db;
  }

  /** A product of positive reals is positive. */
  lemma MulPositive(a: real, b: real)
    requires a > 0.0 && b > 0.0
    ensures a * b > 0.0
  {
  }

  /** Fractions over one denominator add by their numerators. */
  lemma DivAdd(a: real, b: real, d: real)
    requires d != 0.0
    ensures a / d + b / d == (a + b) / d
  {
    assert (a / d) * d == a && (b / d) * d == b;
    assert (a / d + b / d) * d == a + b;
  }

  /** Multiplication distributes over addition. */
  lemma MulDistrib(a: real, b: real, w: real)
    ensures a * w + b * w == (a + b) * w
  {
  }

  /** A non-zero real over itself is one. */
  lemma DivSelf(s: real)
    requires s != 0.0
    ensures s / s == 1.0
  {
  }

  /** A non-negative real over a positive one is non-negative. */
  lemma DivNonNegative(n: real, d: real)
    requires n >= 0.0 && d > 0.0
    ensures n / d >= 0.0
  {
  }

  /** A part of a positive whole: its fraction keeps the part's sign and
      stays below one while the part stays below the whole. */
  lemma Fraction(a: real, s: real)
    requires s > 0.0
    ensures 0.0 < a ==> 0.0 < a / s
    ensures a < s ==> a / s < 1.0
    ensures 0.0 <= a <= s ==> 0.0 <= a / s <= 1.0
  {
    var q := a / s;
    assert q * s == a;
    if q >= 1.0 {
      assert (q - 1.0) * s >= 0.0;
    }
    if q <= 0.0 {
      assert (0.0 - q) * s >= 0.0;
    }
  }

  /** The smallest element of a non-empty sequence (`np.min`). */
  function SeqMin(s: seq<real>): (m: real)
    requires |s| > 0
    ensures m in s && forall x :: x in s ==> m <= x
  {
    if |s| == 1 then s[0]
    else
      var rest := SeqMin(s[1..]);
      assert forall x :: x in s ==> x == s[0] || x in s[1..];
      if s[0] <= rest then s[0] else rest
  }

  /** The largest element of a non-empty sequence (`np.max`). */
  function SeqMax(s: seq<real>): (m: real)
    requires |s| > 0
    ensures m in s && forall x :: x in s ==> x <= m
  {
    if |s| == 1 then s[0]
    else
      var rest := SeqMax(s[1..]);
      assert forall x :: x in s ==> x == s[0] || x in s[1..];
      if s[0] >= rest then s[0] else rest
  }

  function Min(a: real, b: real): real { if a <= b then a else b }
  function Max(a: real, b: real): real { if a >= b then a else b }

  /** The product of two reals, kept behind a function so that the solver
      treats a square as a single term. */
  function Times(a: real, b: real): real
  {
    a * b
  }

  lemma TimesPositive(a: real, b: real)
    requires a > 0.0 && b > 0.0
    ensures Times(a, b) > 0.0
  {
  }

  lemma TimesNonNegative(a: real, b: real)
    requires a >= 0.0 && b >= 0.0
    ensures Times(a, b) >= 0.0
  {
  }

  /** Multiplication distributes over addition. */
  lemma TimesDistrib(a: real, b: real, c: real)
    ensures Times(a, c) + Times(b, c) == Times(a + b, c)
  {
  }

  /** By a non-zero factor, a product is zero only when the other factor is. */
  lemma TimesZero(a: real, c: real)
    requires c != 0.0
    ensures Times(a, c) == 0.0 <==> a == 0.0
  {
  }

  /** A non-zero real times itself is positive. */
  lemma TimesSelfPositive(x: real)
    requires x != 0.0
    ensures Times(x, x) > 0.0
  {
    if x > 0.0 {
      TimesPositive(x, x);
    } else {
      TimesPositive(-x, -x);
      assert Times(-x, -x) == Times(x, x);
    }
  }

  /** The square of a real: never negative, and zero only at zero. */
  function Sq(x: real): (r: real)
    ensures r >= 0.0
    ensures x != 0.0 ==> r > 0.0
  {
    if x == 0.0 then Times(x, x) else TimesSelfPositive(x); Times(x, x)
  }
}
