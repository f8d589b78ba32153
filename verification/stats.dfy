/** The summary statistics the scripts compute with pandas, in exact real
    arithmetic: sums, means of columns that may hold NaN, and the sample
    variance whose square root is `Series.std()`. */
module Stats {
  import opened Wrappers

  function Sum(xs: seq<real>): real
    decreases |xs|
  {
    if |xs| == 0 then 0.0 else xs[0] + Sum(xs[1..])
  }

  lemma {:induction false} SumBetween(xs: seq<real>, lo: real, hi: real)
    requires forall i :: 0 <= i < |xs| ==> lo <= xs[i] <= hi
    ensures |xs| as real * lo <= Sum(xs) <= |xs| as real * hi
    decreases |xs|
  {
    if |xs| > 0 {
      SumBetween(xs[1..], lo, hi);
      assert |xs| as real * lo == (|xs| - 1) as real * lo + lo;
      assert |xs| as real * hi == (|xs| - 1) as real * hi + hi;
    }
  }

  lemma DivideBetween(s: real, n: real, lo: real, hi: real)
    requires n > 0.0
    requires n * lo <= s <= n * hi
    ensures lo <= s / n <= hi
  {
  }

  /** The sum of element-wise differences is the difference of the sums. */
  lemma {:induction false} SumDifference(a: seq<real>, b: seq<real>, d: seq<real>)
    requires |a| == |b| == |d|
    requires forall i :: 0 <= i < |d| ==> d[i] == a[i] - b[i]
    ensures Sum(d) == Sum(a) - Sum(b)
    decreases |d|
  {
    if |d| > 0 {
      SumDifference(a[1..], b[1..], d[1..]);
    }
  }

  /** The values of a column that are not NaN, in order. */
  function Present(xs: seq<Option<real>>): (vs: seq<real>)
    ensures |vs| <= |xs|
    decreases |xs|
  {
    if |xs| == 0 then []
    else match xs[0]
      case None => Present(xs[1..])
      case Some(x) => [x] + Present(xs[1..])
  }

  lemma {:induction false} PresentAll(xs: seq<Option<real>>)
    requires forall i :: 0 <= i < |xs| ==> xs[i].Some?
    ensures |Present(xs)| == |xs|
    ensures forall i :: 0 <= i < |xs| ==> Present(xs)[i] == xs[i].value
    decreases |xs|
  {
    if |xs| > 0 {
      PresentAll(xs[1..]);
    }
  }

  /** `Series.mean()` of a column: NaN entries are skipped, and a column
      with no number has mean NaN (`None`). */
  function ColumnMean(xs: seq<Option<real>>): (m: Option<real>)
    ensures m.None? <==> |Present(xs)| == 0
  {
    var vs := Present(xs);
    if |vs| == 0 then None else Some(Sum(vs) / |vs| as real)
  }

  function SumSquares(xs: seq<real>, m: real): (s: real)
    ensures s >= 0.0
    decreases |xs|
  {
    if |xs| == 0 then 0.0
    else
      var d := xs[0] - m;
      SquareNonNegative(d);
      d * d + SumSquares(xs[1..], m)
  }

  lemma SquareNonNegative(d: real)
    ensures d * d >= 0.0
  {
    if d < 0.0 {
      assert d * d == (-d) * (-d);
    }
  }

  /** The sample variance (`ddof=1`), whose square root pandas' `std()`
      returns; with fewer than two values it is NaN (`None`). */
  function SampleVariance(xs: seq<real>): (v: Option<real>)
    ensures v.None? <==> |xs| < 2
    ensures v.Some? ==> v.value >= 0.0
  {
    if |xs| < 2 then None
    else
      var m := Sum(xs) / |xs| as real;
      Some(SumSquares(xs, m) / (|xs| - 1) as real)
  }

  lemma {:induction false} SumConstant(xs: seq<real>, c: real)
    requires forall i :: 0 <= i < |xs| ==> xs[i] == c
    ensures Sum(xs) == |xs| as real * c
    decreases |xs|
  {
    if |xs| > 0 {
      SumConstant(xs[1..], c);
      assert |xs| as real * c == (|xs| - 1) as real * c + c;
    }
  }

  lemma {:induction false} SumSquaresAtValue(xs: seq<real>, c: real)
    requires forall i :: 0 <= i < |xs| ==> xs[i] == c
    ensures SumSquares(xs, c) == 0.0
    decreases |xs|
  {
    if |xs| > 0 {
      SumSquaresAtValue(xs[1..], c);
    }
  }

  /** A series that never changes has no spread. */
  lemma ConstantVarianceZero(xs: seq<real>, c: real)
    requires |xs| >= 2
    requires forall i :: 0 <= i < |xs| ==> xs[i] == c
    ensures SampleVariance(xs) == Some(0.0)
  {
    SumConstant(xs, c);
    assert Sum(xs) / |xs| as real == c;
    SumSquaresAtValue(xs, c);
  }

  /** The mean of a difference column is the difference of the means when
      no entry is NaN. */
  lemma MeanOfDifferences(a: seq<Option<real>>, b: seq<Option<real>>, d: seq<Option<real>>)
    requires |a| == |b| == |d| > 0
    requires forall i :: 0 <= i < |d| ==> a[i].Some? && b[i].Some? && d[i] == Some(a[i].value - b[i].value)
    ensures ColumnMean(d) == Some(ColumnMean(a).value - ColumnMean(b).value)
  {
    PresentAll(a);
    PresentAll(b);
    PresentAll(d);
    SumDifference(Present(a), Present(b), Present(d));
    var n := |d| as real;
    assert Sum(Present(d)) / n == Sum(Present(a)) / n - Sum(Present(b)) / n;
  }
}
