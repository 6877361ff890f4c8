/** Arithmetic over columns: sums and means of real columns, minimum and
    maximum of timestamp columns (pandas skips NaT), and ascending sorting
    of timestamps. Floating-point rounding is not modelled: values are reals. */
module Numeric {
  import opened Wrappers

  function Sum(xs: seq<real>): real {
    if xs == [] then 0.0 else xs[0] + Sum(xs[1..])
  }

  /** `a / b` for a positive divisor. */
  function Ratio(a: real, b: real): (r: real)
    requires b > 0.0
    ensures r * b == a
    ensures 0.0 <= a ==> 0.0 <= r
    ensures 0.0 < a ==> 0.0 < r
    ensures 0.0 <= a <= b ==> r <= 1.0
  {
    a / b
  }

  lemma DivSelf(d: real)
    requires d != 0.0
    ensures d / d == 1.0
  {
  }

  lemma DivMonotone(a: real, b: real, d: real)
    requires a <= b && d > 0.0
    ensures a / d <= b / d
  {
  }

  lemma RatioOfMultiple(v: real, b: real)
    requires b > 0.0
    ensures Ratio(v * b, b) == v
  {
  }

  lemma QuotientOfMultiple(v: real, b: real)
    requires b != 0.0
    ensures (v * b) / b == v
  {
  }

  lemma ScaleBound(x: real, w: real)
    requires 0.0 <= x <= 1.0 && 0.0 <= w
    ensures 0.0 <= x * w <= w
  {
  }

  lemma AddBounds(p: real, q: real, w: real, v: real)
    requires 0.0 <= p <= w && 0.0 <= q <= v
    ensures 0.0 <= p + q <= w + v
  {
  }

  lemma SumBound4(p1: real, p2: real, p3: real, p4: real, w1: real, w2: real, w3: real, w4: real)
    requires 0.0 <= p1 <= w1 && 0.0 <= p2 <= w2 && 0.0 <= p3 <= w3 && 0.0 <= p4 <= w4
    ensures 0.0 <= p1 + p2 + p3 + p4 <= w1 + w2 + w3 + w4
  {
  }

  lemma Distribute4(v: real, a: real, b: real, c: real, d: real)
    ensures v * a + v * b + v * c + v * d == v * (a + b + c + d)
  {
  }

  lemma Distribute2(v: real, a: real, b: real)
    ensures v * a + v * b == v * (a + b)
  {
  }

  /** `series.mean()` of a non-empty column without NaN. */
  function Mean(xs: seq<real>): real
    requires |xs| > 0
  {
    Sum(xs) / (|xs| as real)
  }

  lemma {:induction false} SumBounds(xs: seq<real>, lo: real, hi: real)
    requires forall i :: 0 <= i < |xs| ==> lo <= xs[i] <= hi
    ensures (|xs| as real) * lo <= Sum(xs) <= (|xs| as real) * hi
  {
    if xs != [] {
      SumBounds(xs[1..], lo, hi);
    }
  }

  /** A mean lies between any bounds of its elements. */
  lemma MeanBounds(xs: seq<real>, lo: real, hi: real)
    requires |xs| > 0
    requires forall i :: 0 <= i < |xs| ==> lo <= xs[i] <= hi
    ensures lo <= Mean(xs) <= hi
  {
    SumBounds(xs, lo, hi);
    var n := |xs| as real;
    assert n * lo <= Sum(xs) <= n * hi;
    assert Mean(xs) * n == Sum(xs);
  }

  predicate NonNegative(xs: seq<real>) {
    forall i :: 0 <= i < |xs| ==> 0.0 <= xs[i]
  }

  lemma {:induction false} SumNonNegative(xs: seq<real>)
    requires NonNegative(xs)
    ensures Sum(xs) >= 0.0
  {
    if xs != [] {
      assert NonNegative(xs[1..]) by {
        forall i | 0 <= i < |xs[1..]| ensures 0.0 <= xs[1..][i] {
          assert xs[1..][i] == xs[i + 1];
        }
      }
      SumNonNegative(xs[1..]);
    }
  }

  lemma MeanNonNegative(xs: seq<real>)
    requires NonNegative(xs)
    ensures |xs| > 0 ==> Mean(xs) >= 0.0
  {
    SumNonNegative(xs);
  }

  /** The smallest element, `None` for an empty column. */
  function MinOf(xs: seq<int>): (r: Option<int>)
    ensures r.None? <==> xs == []
    ensures r.Some? ==> r.value in xs && forall i :: 0 <= i < |xs| ==> r.value <= xs[i]
  {
    if xs == [] then None
    else
      var m := MinOf(xs[1..]);
      if m.Some? && m.value < xs[0] then m else Some(xs[0])
  }

  /** The largest element, `None` for an empty column. */
  function MaxOf(xs: seq<int>): (r: Option<int>)
    ensures r.None? <==> xs == []
    ensures r.Some? ==> r.value in xs && forall i :: 0 <= i < |xs| ==> xs[i] <= r.value
  {
    if xs == [] then None
    else
      var m := MaxOf(xs[1..]);
      if m.Some? && m.value > xs[0] then m else Some(xs[0])
  }

  predicate Sorted(xs: seq<int>) {
    forall i, j :: 0 <= i < j < |xs| ==> xs[i] <= xs[j]
  }

  function Insert(x: int, xs: seq<int>): (r: seq<int>)
    requires Sorted(xs)
    ensures Sorted(r)
    ensures multiset(r) == multiset(xs) + multiset{x}
  {
    if xs == [] then [x]
    else if x <= xs[0] then
      forall i | 0 <= i < |xs| ensures x <= xs[i] {
        if i > 0 { assert xs[0] <= xs[i]; }
      }
      ConsSorted(x, xs);
      [x] + xs
    else
      var rest := Insert(x, xs[1..]);
      InsertBehind(x, xs, rest);
      [xs[0]] + rest
  }

  /** A sorted column stays sorted behind a value no larger than any of it. */
  lemma ConsSorted(y: int, s: seq<int>)
    requires Sorted(s) && forall i :: 0 <= i < |s| ==> y <= s[i]
    ensures Sorted([y] + s)
  {
    var t := [y] + s;
    forall i, j | 0 <= i < j < |t| ensures t[i] <= t[j] {
      assert t[j] == s[j - 1];
      if i > 0 {
        assert t[i] == s[i - 1];
      }
    }
  }

  /** Inserting past the head keeps the head in front. */
  lemma InsertBehind(x: int, xs: seq<int>, rest: seq<int>)
    requires Sorted(xs) && xs != [] && xs[0] < x
    requires Sorted(rest) && multiset(rest) == multiset(xs[1..]) + multiset{x}
    ensures Sorted([xs[0]] + rest)
    ensures multiset([xs[0]] + rest) == multiset(xs) + multiset{x}
  {
    var tail := xs[1..];
    assert xs == [xs[0]] + tail;
    forall i | 0 <= i < |rest| ensures xs[0] <= rest[i] {
      assert rest[i] in multiset(rest);
      if rest[i] != x {
        assert rest[i] in multiset(tail);
        var k :| 0 <= k < |tail| && tail[k] == rest[i];
        assert xs[k + 1] == rest[i];
      }
    }
    ConsSorted(xs[0], rest);
  }

  /** Ascending order of a timestamp column (`sort_values`). Only the
      order of the values matters to the callers, never which of two equal
      timestamps comes first, so stability is irrelevant. */
  function Sort(xs: seq<int>): (r: seq<int>)
    ensures Sorted(r)
    ensures multiset(r) == multiset(xs)
    ensures |r| == |xs|
  {
    if xs == [] then []
    else
      assert xs == [xs[0]] + xs[1..];
      var r := Insert(xs[0], Sort(xs[1..]));
      assert |r| == |multiset(r)| == |multiset(xs)| == |xs|;
      r
  }

  /** A sorted permutation starts with the minimum and ends with the maximum. */
  lemma SortedPermutationEnds(s: seq<int>, xs: seq<int>, lo: int, hi: int)
    requires Sorted(s) && multiset(s) == multiset(xs) && |s| > 0
    requires lo in xs && forall i :: 0 <= i < |xs| ==> lo <= xs[i]
    requires hi in xs && forall i :: 0 <= i < |xs| ==> xs[i] <= hi
    ensures s[0] == lo && s[|s| - 1] == hi
  {
    assert s[0] in multiset(xs) && s[|s| - 1] in multiset(xs);
    assert lo in multiset(s) && hi in multiset(s);
    var i :| 0 <= i < |s| && s[i] == lo;
    var j :| 0 <= j < |s| && s[j] == hi;
    assert s[0] <= s[i] && s[j] <= s[|s| - 1];
    var a :| 0 <= a < |xs| && xs[a] == s[0];
    var b :| 0 <= b < |xs| && xs[b] == s[|s| - 1];
  }

  /** A sorted column starts with its minimum and ends with its maximum. */
  lemma SortedEnds(xs: seq<int>)
    requires |xs| > 0
    ensures Sort(xs)[0] == MinOf(xs).value
    ensures Sort(xs)[|xs| - 1] == MaxOf(xs).value
  {
    SortedPermutationEnds(Sort(xs), xs, MinOf(xs).value, MaxOf(xs).value);
  }
}
