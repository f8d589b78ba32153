/** Orderings used by the analysis code: the sorted distinct keys that
    `drop_duplicates().sort_values()`, `groupby` and `pivot` produce, the
    code-point order Python uses on strings, and the sorted prices a
    quantile is read from. */
module Ordering {
  /** `lt` is a strict total order. */
  ghost predicate StrictTotal<T(!new)>(lt: (T, T) -> bool) {
    && (forall a :: !lt(a, a))
    && (forall a, b, c :: lt(a, b) && lt(b, c) ==> lt(a, c))
    && (forall a, b :: a != b ==> lt(a, b) || lt(b, a))
  }

  predicate SortedBy<T>(s: seq<T>, lt: (T, T) -> bool) {
    forall i, j :: 0 <= i < j < |s| ==> lt(s[i], s[j])
  }

  /** `x` placed into a strictly sorted sequence, unless already present. */
  function InsertDistinct<T(==,!new)>(s: seq<T>, x: T, lt: (T, T) -> bool): (r: seq<T>)
    requires StrictTotal(lt)
    requires SortedBy(s, lt)
    ensures SortedBy(r, lt)
    ensures forall y :: y in r <==> y in s || y == x
    decreases |s|
  {
    if |s| == 0 then [x]
    else if x == s[0] then s
    else if lt(x, s[0]) then
      assert forall j :: 0 <= j < |s| ==> lt(x, s[j]) by {
        forall j | 0 <= j < |s| ensures lt(x, s[j]) {
          if j > 0 {
            assert lt(s[0], s[j]);
          }
        }
      }
      [x] + s
    else
      var rest := InsertDistinct(s[1..], x, lt);
      assert forall y :: y in s[1..] ==> lt(s[0], y) by {
        forall y | y in s[1..] ensures lt(s[0], y) {
          var j :| 0 <= j < |s[1..]| && s[1..][j] == y;
          assert s[j + 1] == y;
        }
      }
      assert forall j :: 0 <= j < |rest| ==> lt(s[0], rest[j]) by {
        forall j | 0 <= j < |rest| ensures lt(s[0], rest[j]) {
          assert rest[j] in rest;
        }
      }
      assert s == [s[0]] + s[1..];
      [s[0]] + rest
  }

  /** The distinct elements of `xs` in ascending order. */
  function SortDistinct<T(==,!new)>(xs: seq<T>, lt: (T, T) -> bool): (r: seq<T>)
    requires StrictTotal(lt)
    ensures SortedBy(r, lt)
    ensures forall y :: y in r <==> y in xs
    decreases |xs|
  {
    if |xs| == 0 then []
    else
      assert xs == xs[..|xs| - 1] + [xs[|xs| - 1]];
      InsertDistinct(SortDistinct(xs[..|xs| - 1], lt), xs[|xs| - 1], lt)
  }

  lemma EmptyTogether<T>(a: seq<T>, b: seq<T>)
    requires forall y :: y in a <==> y in b
    ensures |a| == 0 <==> |b| == 0
  {
    if |a| > 0 {
      assert a[0] in a;
    }
    if |b| > 0 {
      assert b[0] in b;
    }
  }

  /** Both sorted sequences start with the least element. */
  lemma SameLeast<T(!new)>(a: seq<T>, b: seq<T>, lt: (T, T) -> bool)
    requires StrictTotal(lt)
    requires SortedBy(a, lt) && SortedBy(b, lt)
    requires forall y :: y in a <==> y in b
    requires |a| > 0 && |b| > 0
    ensures a[0] == b[0]
  {
    assert b[0] in b;
    var j :| 0 <= j < |a| && a[j] == b[0];
    assert a[0] in a;
    var k :| 0 <= k < |b| && b[k] == a[0];
  }

  /** Two strictly sorted sequences with the same elements are equal: the
      sorted distinct keys are determined by the set of keys. */
  lemma {:induction false} SortedUnique<T(!new)>(a: seq<T>, b: seq<T>, lt: (T, T) -> bool)
    requires StrictTotal(lt)
    requires SortedBy(a, lt) && SortedBy(b, lt)
    requires forall y :: y in a <==> y in b
    ensures a == b
    decreases |a|
  {
    EmptyTogether(a, b);
    if |a| > 0 {
      SameLeast(a, b, lt);
      assert forall y :: y in a[1..] <==> y in b[1..] by {
        forall y ensures y in a[1..] <==> y in b[1..] {
          if y in a[1..] {
            var j :| 0 <= j < |a[1..]| && a[1..][j] == y;
            assert lt(a[0], a[j + 1]);
            assert y in b && y != b[0];
            var k :| 0 <= k < |b| && b[k] == y;
            assert b[1..][k - 1] == y;
          }
          if y in b[1..] {
            var j :| 0 <= j < |b[1..]| && b[1..][j] == y;
            assert lt(b[0], b[j + 1]);
            assert y in a && y != a[0];
            var k :| 0 <= k < |a| && a[k] == y;
            assert a[1..][k - 1] == y;
          }
        }
      }
      SortedUnique(a[1..], b[1..], lt);
      assert a == [a[0]] + a[1..] && b == [b[0]] + b[1..];
    }
  }

  // ---------------------------------------------------------------------
  // Integers (day numbers)

  function IntLess(a: int, b: int): bool { a < b }

  lemma IntLessIsStrictTotal()
    ensures StrictTotal(IntLess)
  {
  }

  /** Strictly increasing day numbers. */
  predicate Increasing(s: seq<int>) {
    forall i, j :: 0 <= i < j < |s| ==> s[i] < s[j]
  }

  function SortedDays(xs: seq<int>): (r: seq<int>)
    ensures Increasing(r)
    ensures forall y :: y in r <==> y in xs
  {
    IntLessIsStrictTotal();
    var r := SortDistinct(xs, IntLess);
    assert forall i, j :: 0 <= i < j < |r| ==> IntLess(r[i], r[j]);
    r
  }

  // ---------------------------------------------------------------------
  // Strings in code-point order, as Python compares them

  predicate StrLess(a: string, b: string)
    decreases |a|
  {
    if |a| == 0 then |b| > 0
    else if |b| == 0 then false
    else if a[0] != b[0] then a[0] < b[0]
    else StrLess(a[1..], b[1..])
  }

  lemma {:induction false} StrLessIrreflexive(a: string)
    ensures !StrLess(a, a)
    decreases |a|
  {
    if |a| > 0 {
      StrLessIrreflexive(a[1..]);
    }
  }

  lemma {:induction false} StrLessTransitive(a: string, b: string, c: string)
    requires StrLess(a, b) && StrLess(b, c)
    ensures StrLess(a, c)
    decreases |a|
  {
    if |a| > 0 && |b| > 0 && |c| > 0 && a[0] == b[0] && b[0] == c[0] {
      StrLessTransitive(a[1..], b[1..], c[1..]);
    }
  }

  lemma {:induction false} StrLessTotal(a: string, b: string)
    requires a != b
    ensures StrLess(a, b) || StrLess(b, a)
    decreases |a|
  {
    if |a| > 0 && |b| > 0 && a[0] == b[0] {
      assert a == [a[0]] + a[1..] && b == [b[0]] + b[1..];
      StrLessTotal(a[1..], b[1..]);
    }
  }

  lemma StrLessIsStrictTotal()
    ensures StrictTotal(StrLess)
  {
    forall a: string ensures !StrLess(a, a) {
      StrLessIrreflexive(a);
    }
    forall a: string, b: string, c: string | StrLess(a, b) && StrLess(b, c)
      ensures StrLess(a, c)
    {
      StrLessTransitive(a, b, c);
    }
    forall a: string, b: string | a != b ensures StrLess(a, b) || StrLess(b, a) {
      StrLessTotal(a, b);
    }
  }

  /** The distinct strings of `xs` in Python's sort order. */
  function SortedNames(xs: seq<string>): (r: seq<string>)
    ensures SortedBy(r, StrLess)
    ensures forall y :: y in r <==> y in xs
  {
    StrLessIsStrictTotal();
    SortDistinct(xs, StrLess)
  }

  // ---------------------------------------------------------------------
  // Reals with repetitions

  predicate NonDecreasing(s: seq<real>) {
    forall i, j :: 0 <= i <= j < |s| ==> s[i] <= s[j]
  }

  function InsertReal(s: seq<real>, x: real): (r: seq<real>)
    requires NonDecreasing(s)
    ensures |r| == |s| + 1
    ensures NonDecreasing(r)
    ensures multiset(r) == multiset(s) + multiset{x}
    decreases |s|
  {
    if |s| == 0 || x <= s[0] then [x] + s
    else
      var rest := InsertReal(s[1..], x);
      assert s == [s[0]] + s[1..];
      assert forall j :: 0 <= j < |rest| ==> s[0] <= rest[j] by {
        forall j | 0 <= j < |rest| ensures s[0] <= rest[j] {
          assert rest[j] in multiset(rest);
          assert rest[j] in multiset(s[1..]) || rest[j] == x;
          if rest[j] != x {
            var k :| 0 <= k < |s[1..]| && s[1..][k] == rest[j];
            assert s[k + 1] == rest[j];
          }
        }
      }
      [s[0]] + rest
  }

  /** The values in ascending order, repetitions kept. */
  function SortReals(xs: seq<real>): (r: seq<real>)
    ensures |r| == |xs|
    ensures NonDecreasing(r)
    ensures multiset(r) == multiset(xs)
    decreases |xs|
  {
    if |xs| == 0 then []
    else
      assert xs == xs[..|xs| - 1] + [xs[|xs| - 1]];
      InsertReal(SortReals(xs[..|xs| - 1]), xs[|xs| - 1])
  }
}
