/** Generic facts about sequences shared by the later modules. */
module Seqs {
  /** Every element satisfies `p`, stated element by element from the front
      so that proofs about prefixes and concatenations stay small. */
  predicate All<T>(s: seq<T>, p: T -> bool) {
    |s| == 0 || (p(s[0]) && All(s[1..], p))
  }

  lemma {:induction false} AllAt<T>(s: seq<T>, p: T -> bool, i: nat)
    requires All(s, p)
    requires i < |s|
    ensures p(s[i])
  {
    if i > 0 {
      AllAt(s[1..], p, i - 1);
    }
  }

  lemma {:induction false} AllAppend<T>(a: seq<T>, b: seq<T>, p: T -> bool)
    requires All(a, p) && All(b, p)
    ensures All(a + b, p)
  {
    if |a| > 0 {
      assert (a + b)[0] == a[0];
      assert (a + b)[1..] == a[1..] + b;
      AllAppend(a[1..], b, p);
    } else {
      assert a + b == b;
    }
  }
  /** The elements satisfying `p`, in their original order. */
  function Filter<T>(s: seq<T>, p: T -> bool): (r: seq<T>)
    ensures |r| <= |s|
    ensures forall i :: 0 <= i < |r| ==> p(r[i]) && r[i] in s
    decreases |s|
  {
    if |s| == 0 then []
    else if p(s[0]) then [s[0]] + Filter(s[1..], p)
    else Filter(s[1..], p)
  }

  /** Filtering keeps every copy of a satisfying element and no copy of any
      other. */
  lemma {:induction false} FilterCount<T>(s: seq<T>, p: T -> bool, x: T)
    ensures multiset(Filter(s, p))[x] == if p(x) then multiset(s)[x] else 0
    decreases |s|
  {
    if |s| > 0 {
      FilterCount(s[1..], p, x);
      assert s == [s[0]] + s[1..];
    }
  }

  lemma {:induction false} FilterKeepsAll<T>(s: seq<T>, p: T -> bool)
    requires forall i :: 0 <= i < |s| ==> p(s[i])
    ensures Filter(s, p) == s
    decreases |s|
  {
    if |s| > 0 {
      FilterKeepsAll(s[1..], p);
      assert s == [s[0]] + s[1..];
    }
  }

  /** Filtering by a stronger condition after a weaker one is filtering by
      the stronger one alone. */
  lemma {:induction false} FilterFilter<T>(s: seq<T>, p: T -> bool, q: T -> bool)
    requires forall i :: 0 <= i < |s| ==> q(s[i]) ==> p(s[i])
    ensures Filter(Filter(s, p), q) == Filter(s, q)
    decreases |s|
  {
    if |s| > 0 {
      FilterFilter(s[1..], p, q);
      if p(s[0]) {
        assert Filter(s, p)[1..] == Filter(s[1..], p);
      }
    }
  }

  lemma {:induction false} FilterAppend<T>(a: seq<T>, b: seq<T>, p: T -> bool)
    ensures Filter(a + b, p) == Filter(a, p) + Filter(b, p)
    decreases |a|
  {
    if |a| > 0 {
      assert (a + b)[0] == a[0];
      assert (a + b)[1..] == a[1..] + b;
      FilterAppend(a[1..], b, p);
    } else {
      assert a + b == b;
    }
  }

  lemma {:induction false} FilterKeepsNone<T>(s: seq<T>, p: T -> bool)
    requires forall i :: 0 <= i < |s| ==> !p(s[i])
    ensures Filter(s, p) == []
    decreases |s|
  {
    if |s| > 0 {
      FilterKeepsNone(s[1..], p);
    }
  }

  /** A sub-multiset has no more elements. */
  lemma SubMultisetSize<T>(a: multiset<T>, b: multiset<T>)
    requires a <= b
    ensures |a| <= |b|
  {
    assert b == a + (b - a);
  }

  /** Filtering depends only on the verdicts on the elements present. */
  lemma {:induction false} FilterEquivalent<T>(s: seq<T>, p: T -> bool, q: T -> bool)
    requires forall i :: 0 <= i < |s| ==> p(s[i]) == q(s[i])
    ensures Filter(s, p) == Filter(s, q)
    decreases |s|
  {
    if |s| > 0 {
      FilterEquivalent(s[1..], p, q);
    }
  }

  /** An element survives filtering exactly when it is present and satisfies
      the condition. */
  lemma FilterMember<T>(s: seq<T>, p: T -> bool, x: T)
    ensures x in Filter(s, p) <==> x in s && p(x)
  {
    FilterCount(s, p, x);
    assert x in Filter(s, p) <==> multiset(Filter(s, p))[x] > 0;
    assert x in s <==> multiset(s)[x] > 0;
  }

  /** Counting in a sequence with one more element in front. */
  lemma MultisetCons<T>(a: T, t: seq<T>, y: T)
    ensures multiset([a] + t)[y] == (if a == y then 1 else 0) + multiset(t)[y]
  {
    assert multiset([a] + t) == multiset([a]) + multiset(t);
  }

  /** An element-wise image of a sequence under a map that is one-to-one at
      `x` holds the image of `x` as often as the sequence holds `x`. */
  lemma {:induction false} ImageCount<A, B>(s: seq<A>, t: seq<B>, f: A -> B, x: A)
    requires |t| == |s|
    requires forall i :: 0 <= i < |s| ==> t[i] == f(s[i])
    requires forall a :: f(a) == f(x) ==> a == x
    ensures multiset(t)[f(x)] == multiset(s)[x]
    decreases |s|
  {
    if |s| > 0 {
      ImageCount(s[1..], t[1..], f, x);
      assert s == [s[0]] + s[1..];
      assert t == [t[0]] + t[1..];
      MultisetCons(s[0], s[1..], x);
      MultisetCons(t[0], t[1..], f(x));
    }
  }

  /** A concatenation splits back into its parts. */
  lemma SplitAt<T>(s: seq<T>, a: seq<T>, b: seq<T>)
    requires s == a + b
    ensures s[..|a|] == a && s[|a|..] == b
  {
  }

  /** Slicing after dropping a prefix slices the original. */
  lemma DropSlice<T>(s: seq<T>, n: nat, i: nat, j: nat)
    requires n <= i <= j <= |s|
    ensures s[n..][i - n..j - n] == s[i..j]
  {
  }

  /** A suffix one longer is the shorter suffix of the front part, then
      the last element. */
  lemma SuffixSnoc<T>(s: seq<T>, k: nat)
    requires k < |s|
    ensures s[|s| - (k + 1)..] == s[..|s| - 1][|s| - 1 - k..] + [s[|s| - 1]]
    ensures k < |s| - 1 ==> s[..|s| - 1][|s| - 1 - k - 1] == s[|s| - k - 2]
  {
  }

  /** Concatenations with the same front part agree on the rest. */
  lemma AppendCancel<T>(a: seq<T>, b: seq<T>, c: seq<T>)
    requires a + b == a + c
    ensures b == c
  {
    assert b == (a + b)[|a|..];
  }
}
