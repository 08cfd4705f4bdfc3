/** `find_indices(original, subset)`: for each value of `subset`, an index
    of `original` holding it, as a decimal string.

    The source sorts the indices of `original` by value (`np.argsort`),
    finds each subset value's leftmost insertion point in the sorted values
    (`np.searchsorted`), and maps that position back through the sorting
    indices. `np.argsort`'s default sort is not stable, so the lookup takes
    any sorting permutation; `ArgSort` builds one (a stable one). */
module FindIndices {
  import opened Common

  /** 0, 1, ..., n - 1. */
  function Range(n: nat): (r: seq<nat>)
    ensures |r| == n && forall k :: 0 <= k < n ==> r[k] == k
  {
    seq(n, k requires 0 <= k < n => k)
  }

  /** `order` lists every index of xs once and visits xs in ascending order. */
  ghost predicate IsArgSort(xs: seq<real>, order: seq<nat>) {
    && |order| == |xs|
    && multiset(order) == multiset(Range(|xs|))
    && (forall k :: 0 <= k < |order| ==> order[k] < |xs|)
    && (forall a, b :: 0 <= a < b < |order| ==> xs[order[a]] <= xs[order[b]])
  }

  /** Indices, all below n, listed in ascending order of their values. */
  ghost predicate SortedBy(xs: seq<real>, order: seq<nat>) {
    && (forall k :: 0 <= k < |order| ==> order[k] < |xs|)
    && (forall a, b :: 0 <= a < b < |order| ==> xs[order[a]] <= xs[order[b]])
  }

  /** Index i put into `order` after every index whose value is not above
      xs[i]. */
  function Insert(xs: seq<real>, order: seq<nat>, i: nat): (r: seq<nat>)
    requires i < |xs| && forall k :: 0 <= k < |order| ==> order[k] < |xs|
    ensures |r| == |order| + 1 && forall k :: 0 <= k < |r| ==> r[k] < |xs|
    ensures multiset(r) == multiset(order) + multiset{i}
  {
    if order == [] then [i]
    else if xs[i] < xs[order[0]] then [i] + order
    else
      assert order == [order[0]] + order[1..];
      [order[0]] + Insert(xs, order[1..], i)
  }

  /** Inserting keeps the order sorted. */
  lemma {:induction false} InsertSorted(xs: seq<real>, order: seq<nat>, i: nat)
    requires i < |xs| && SortedBy(xs, order)
    ensures SortedBy(xs, Insert(xs, order, i))
  {
    var r := Insert(xs, order, i);
    if order != [] && xs[i] >= xs[order[0]] {
      var rest := Insert(xs, order[1..], i);
      InsertSorted(xs, order[1..], i);
      InsertAtLeast(xs, order[1..], i, xs[order[0]]);
      assert r == [order[0]] + rest;
    }
  }

  /** Inserting an index whose value is at least v into indices whose values
      are all at least v keeps them so. */
  lemma {:induction false} InsertAtLeast(xs: seq<real>, order: seq<nat>, i: nat, v: real)
    requires i < |xs| && (forall k :: 0 <= k < |order| ==> order[k] < |xs| && xs[order[k]] >= v)
    requires xs[i] >= v
    ensures forall k :: 0 <= k < |order| + 1 ==> xs[Insert(xs, order, i)[k]] >= v
  {
    if order != [] && xs[i] >= xs[order[0]] {
      InsertAtLeast(xs, order[1..], i, v);
      assert Insert(xs, order, i) == [order[0]] + Insert(xs, order[1..], i);
    }
  }

  /** The indices of xs[..n] sorted by value, by insertion. */
  function ArgSortPrefix(xs: seq<real>, n: nat): (r: seq<nat>)
    requires n <= |xs|
    ensures |r| == n && multiset(r) == multiset(Range(n))
    ensures SortedBy(xs, r)
  {
    if n == 0 then []
    else
      assert Range(n) == Range(n - 1) + [n - 1];
      var before := ArgSortPrefix(xs, n - 1);
      InsertSorted(xs, before, n - 1);
      Insert(xs, before, n - 1)
  }

  /** `np.argsort(xs)`. */
  function ArgSort(xs: seq<real>): (r: seq<nat>)
    ensures IsArgSort(xs, r)
  {
    ArgSortPrefix(xs, |xs|)
  }

  /** `np.searchsorted(s, v)` (side 'left'): the first position whose value
      is at least v, or |s| when there is none. */
  function SearchLeft(s: seq<real>, v: real): (p: nat)
    ensures p <= |s|
    ensures forall k :: 0 <= k < p ==> s[k] < v
    ensures p < |s| ==> s[p] >= v
  {
    if s == [] || s[0] >= v then 0 else 1 + SearchLeft(s[1..], v)
  }

  /** `xs[order]`. */
  function Gather(xs: seq<real>, order: seq<nat>): (s: seq<real>)
    requires forall k :: 0 <= k < |order| ==> order[k] < |xs|
    ensures |s| == |order| && forall k :: 0 <= k < |order| ==> s[k] == xs[order[k]]
  {
    seq(|order|, k requires 0 <= k < |order| => xs[order[k]])
  }

  /** `sorted_indices[np.searchsorted(sorted_original, subset)]`: an index
      error as soon as one subset value lies above every value. */
  function FindIndexNumbers(original: seq<real>, subset: seq<real>, order: seq<nat>): (r: Option<seq<nat>>)
    requires IsArgSort(original, order)
    ensures r.None? <==> exists k :: 0 <= k < |subset| && SearchLeft(Gather(original, order), subset[k]) == |original|
    ensures r.Some? ==> |r.value| == |subset| && forall k :: 0 <= k < |subset| ==>
      r.value[k] == order[SearchLeft(Gather(original, order), subset[k])]
  {
    var sorted := Gather(original, order);
    if exists k :: 0 <= k < |subset| && SearchLeft(sorted, subset[k]) == |original| then None
    else Some(seq(|subset|, k requires 0 <= k < |subset| => order[SearchLeft(sorted, subset[k])]))
  }

  /** Every index of xs sits somewhere in a sorting permutation. */
  lemma IndexListed(xs: seq<real>, order: seq<nat>, j: nat)
    requires IsArgSort(xs, order) && j < |xs|
    ensures exists q :: 0 <= q < |order| && order[q] == j
  {
    assert Range(|xs|)[j] == j;
    assert j in multiset(Range(|xs|));
    assert j in multiset(order);
    assert j in order;
  }

  /** The position found leads to the smallest value of `original` that is
      at least v, and to no smaller position. */
  lemma FoundIsLeastAtLeast(original: seq<real>, order: seq<nat>, v: real)
    requires IsArgSort(original, order)
    requires SearchLeft(Gather(original, order), v) < |order|
    ensures var j := order[SearchLeft(Gather(original, order), v)];
      j < |original| && original[j] >= v && forall x :: x in original && x >= v ==> original[j] <= x
  {
    var sorted := Gather(original, order);
    var p := SearchLeft(sorted, v);
    forall x | x in original && x >= v ensures original[order[p]] <= x {
      var i :| 0 <= i < |original| && original[i] == x;
      IndexListed(original, order, i);
      var q :| 0 <= q < |order| && order[q] == i;
      assert sorted[q] == x && !(sorted[q] < v);
      assert p <= q;
    }
  }

  /** A value that occurs in `original` is mapped to an index holding it. */
  lemma PresentValueFound(original: seq<real>, order: seq<nat>, v: real)
    requires IsArgSort(original, order) && v in original
    ensures SearchLeft(Gather(original, order), v) < |original|
    ensures original[order[SearchLeft(Gather(original, order), v)]] == v
  {
    var sorted := Gather(original, order);
    var i :| 0 <= i < |original| && original[i] == v;
    IndexListed(original, order, i);
    var q :| 0 <= q < |order| && order[q] == i;
    assert sorted[q] == v;
    FoundIsLeastAtLeast(original, order, v);
  }

  /** A value above every value of `original` finds no position, and the
      lookup fails; any other value finds one. */
  lemma NotFoundIffAboveAll(original: seq<real>, order: seq<nat>, v: real)
    requires IsArgSort(original, order)
    ensures SearchLeft(Gather(original, order), v) == |original| <==> forall x :: x in original ==> x < v
  {
    var sorted := Gather(original, order);
    var p := SearchLeft(sorted, v);
    if p == |original| {
      forall x | x in original ensures x < v {
        var i :| 0 <= i < |original| && original[i] == x;
        IndexListed(original, order, i);
        var q :| 0 <= q < |order| && order[q] == i;
        assert sorted[q] == x;
      }
    } else {
      assert original[order[p]] in original;
    }
  }

  /** The decimal digit of d < 10. */
  function Digit(d: nat): char
    requires d < 10
  {
    ('0' as int + d) as char
  }

  function DigitValue(c: char): nat {
    if '0' <= c <= '9' then (c - '0') as nat else 0
  }

  /** `str(n)` for a non-negative integer. */
  function Decimal(n: nat): (s: string)
    ensures |s| >= 1 && forall k :: 0 <= k < |s| ==> '0' <= s[k] <= '9'
    ensures |s| > 1 ==> s[0] != '0'
  {
    if n < 10 then [Digit(n)] else Decimal(n / 10) + [Digit(n % 10)]
  }

  /** The value of a string of decimal digits. */
  function ParseDecimal(s: string): nat {
    if s == [] then 0 else ParseDecimal(s[..|s| - 1]) * 10 + DigitValue(s[|s| - 1])
  }

  /** Reading back `str(n)` gives n. */
  lemma {:induction false} DecimalRoundTrip(n: nat)
    ensures ParseDecimal(Decimal(n)) == n
  {
    if n >= 10 {
      var q, d := n / 10, n % 10;
      DecimalRoundTrip(q);
      var s := Decimal(n);
      assert s == Decimal(q) + [Digit(d)];
      assert s[..|s| - 1] == Decimal(q);
      assert n == q * 10 + d;
    }
  }

  /** `find_indices`: one decimal string per subset value, in subset order;
      `None` for the index error. */
  function FindIndices(original: seq<real>, subset: seq<real>, order: seq<nat>): (r: Option<seq<string>>)
    requires IsArgSort(original, order)
    ensures r.None? <==> exists k :: 0 <= k < |subset| && forall x :: x in original ==> x < subset[k]
    ensures r.Some? ==> |r.value| == |subset| && forall k :: 0 <= k < |subset| ==>
      && ParseDecimal(r.value[k]) < |original|
      && original[ParseDecimal(r.value[k])] >= subset[k]
      && (subset[k] in original ==> original[ParseDecimal(r.value[k])] == subset[k])
      && (forall x :: x in original && x >= subset[k] ==> original[ParseDecimal(r.value[k])] <= x)
  {
    var found := FindIndexNumbers(original, subset, order);
    FoundFacts(original, subset, order);
    assert found.None? <==> exists k :: 0 <= k < |subset| && forall x :: x in original ==> x < subset[k];
    if found.None? then None
    else
      var js := found.value;
      Some(seq(|js|, k requires 0 <= k < |js| => Decimal(js[k])))
  }

  lemma FoundFacts(original: seq<real>, subset: seq<real>, order: seq<nat>)
    requires IsArgSort(original, order)
    ensures FindIndexNumbers(original, subset, order).None? <==>
      exists k :: 0 <= k < |subset| && forall x :: x in original ==> x < subset[k]
    ensures var r := FindIndexNumbers(original, subset, order);
      r.Some? ==> forall k :: 0 <= k < |subset| ==>
        && ParseDecimal(Decimal(r.value[k])) < |original|
        && original[ParseDecimal(Decimal(r.value[k]))] >= subset[k]
        && (subset[k] in original ==> original[ParseDecimal(Decimal(r.value[k]))] == subset[k])
        && (forall x :: x in original && x >= subset[k] ==> original[ParseDecimal(Decimal(r.value[k]))] <= x)
  {
    var sorted := Gather(original, order);
    var r := FindIndexNumbers(original, subset, order);
    if exists k :: 0 <= k < |subset| && forall x :: x in original ==> x < subset[k] {
      var k :| 0 <= k < |subset| && forall x :: x in original ==> x < subset[k];
      NotFoundIffAboveAll(original, order, subset[k]);
    }
    if r.None? {
      var k :| 0 <= k < |subset| && SearchLeft(sorted, subset[k]) == |original|;
      NotFoundIffAboveAll(original, order, subset[k]);
    }
    if r.Some? {
      forall k | 0 <= k < |subset|
        ensures && ParseDecimal(Decimal(r.value[k])) < |original|
                && original[ParseDecimal(Decimal(r.value[k]))] >= subset[k]
                && (subset[k] in original ==> original[ParseDecimal(Decimal(r.value[k]))] == subset[k])
                && (forall x :: x in original && x >= subset[k] ==> original[ParseDecimal(Decimal(r.value[k]))] <= x)
      {
        DecimalRoundTrip(r.value[k]);
        FoundIsLeastAtLeast(original, order, subset[k]);
        if subset[k] in original {
          PresentValueFound(original, order, subset[k]);
        }
      }
    }
  }
}
