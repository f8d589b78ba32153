/** `remove_outliers` (dataclean.py, lines 22-47): the rows grouped by
    model, groups below a size floor dropped, and in each remaining group the
    rows outside the interquartile fence removed. Rows with a missing model
    belong to no group; rows with a missing price never pass the fence. */
module Outliers {
  import opened Wrappers
  import opened Seqs
  import opened Ordering
  import opened Loader

  // ---------------------------------------------------------------------
  // Groups

  /** The rows of one model, in table order. */
  function GroupOf(rows: seq<Row>, m: string): (g: seq<Row>)
    ensures forall i :: 0 <= i < |g| ==> g[i].model == Some(m)
  {
    Filter(rows, (r: Row) => r.model == Some(m))
  }

  lemma GroupOfCount(rows: seq<Row>, m: string, x: Row)
    ensures multiset(GroupOf(rows, m))[x] == if x.model == Some(m) then multiset(rows)[x] else 0
  {
    FilterCount(rows, (r: Row) => r.model == Some(m), x);
  }

  /** The models present, in table order, with repetitions. */
  function ModelsOf(rows: seq<Row>): (ms: seq<string>)
    ensures forall m :: m in ms <==> exists i :: 0 <= i < |rows| && rows[i].model == Some(m)
    decreases |rows|
  {
    if |rows| == 0 then []
    else
      var rest := ModelsOf(rows[1..]);
      assert forall i :: 0 < i < |rows| ==> rows[i] == rows[1..][i - 1];
      match rows[0].model
      case None => rest
      case Some(m) => [m] + rest
  }

  /** The group keys in `groupby`'s sorted order. */
  function Keys(rows: seq<Row>): (ks: seq<string>)
    ensures SortedBy(ks, StrLess)
    ensures forall m :: m in ks <==> exists i :: 0 <= i < |rows| && rows[i].model == Some(m)
  {
    SortedNames(ModelsOf(rows))
  }

  // ---------------------------------------------------------------------
  // Quantiles

  /** The prices that are not NaN, in table order. */
  function PricesOf(rows: seq<Row>): (ps: seq<real>)
    ensures |ps| <= |rows|
    decreases |rows|
  {
    if |rows| == 0 then []
    else match rows[0].price
      case None => PricesOf(rows[1..])
      case Some(p) => [p] + PricesOf(rows[1..])
  }

  /** pandas' default `quantile`, linear interpolation between the sorted
      values, at level `h / (4 * (n - 1))`: the position `h / 4` counts in
      quarters of a step, so the first quartile is at `h = n - 1` and the
      third at `h = 3 * (n - 1)`. */
  function QuantileAt(xs: seq<real>, h: nat): real
    requires |xs| > 0 && h <= 4 * (|xs| - 1)
  {
    var j := h / 4;
    if h % 4 == 0 then xs[j]
    else xs[j] + ((h % 4) as real / 4.0) * (xs[j + 1] - xs[j])
  }

  function Q1(xs: seq<real>): real
    requires |xs| > 0
  {
    QuantileAt(xs, |xs| - 1)
  }

  function Q3(xs: seq<real>): real
    requires |xs| > 0
  {
    QuantileAt(xs, 3 * (|xs| - 1))
  }

  lemma ScaleMonotone(t1: real, t2: real, w: real)
    requires t1 <= t2 && w >= 0.0
    ensures t1 * w <= t2 * w
  {
  }

  lemma Interpolation(a: real, b: real, t: real)
    requires a <= b && 0.0 < t < 1.0
    ensures a <= a + t * (b - a) <= b
  {
    ScaleMonotone(0.0, t, b - a);
    ScaleMonotone(t, 1.0, b - a);
  }

  /** The quantile lies between the value at its position rounded down and
      the next one. */
  lemma QuantileBetween(xs: seq<real>, h: nat)
    requires |xs| > 0 && h <= 4 * (|xs| - 1) && NonDecreasing(xs)
    ensures xs[h / 4] <= QuantileAt(xs, h)
    ensures h % 4 == 0 ==> QuantileAt(xs, h) == xs[h / 4]
    ensures h % 4 > 0 ==> QuantileAt(xs, h) <= xs[h / 4 + 1]
  {
    var j := h / 4;
    if h % 4 > 0 {
      Interpolation(xs[j], xs[j + 1], (h % 4) as real / 4.0);
    }
  }

  /** A quantile lies between the least and the greatest value. */
  lemma QuantileBounds(xs: seq<real>, h: nat)
    requires |xs| > 0 && h <= 4 * (|xs| - 1) && NonDecreasing(xs)
    ensures xs[0] <= QuantileAt(xs, h) <= xs[|xs| - 1]
  {
    QuantileBetween(xs, h);
  }

  /** A higher level gives a quantile at least as high. */
  lemma QuantileMonotone(xs: seq<real>, h1: nat, h2: nat)
    requires |xs| > 0 && h1 <= h2 <= 4 * (|xs| - 1) && NonDecreasing(xs)
    ensures QuantileAt(xs, h1) <= QuantileAt(xs, h2)
  {
    var j1 := h1 / 4;
    var j2 := h2 / 4;
    assert h1 == 4 * j1 + h1 % 4 && h2 == 4 * j2 + h2 % 4;
    if j1 == j2 {
      assert h1 % 4 <= h2 % 4;
      SameStepMonotone(xs, h1, h2);
    } else {
      assert j1 < j2;
      QuantileBetween(xs, h1);
      QuantileBetween(xs, h2);
      if h1 % 4 > 0 {
        assert xs[j1 + 1] <= xs[j2];
      } else {
        assert xs[j1] <= xs[j2];
      }
    }
  }

  /** Between the same two values the quantile grows with its level. */
  lemma SameStepMonotone(xs: seq<real>, h1: nat, h2: nat)
    requires |xs| > 0 && h1 <= h2 <= 4 * (|xs| - 1) && NonDecreasing(xs)
    requires h1 / 4 == h2 / 4 && h1 % 4 <= h2 % 4
    ensures QuantileAt(xs, h1) <= QuantileAt(xs, h2)
  {
    var j := h1 / 4;
    if h1 % 4 > 0 {
      assert h2 % 4 > 0 && j + 1 < |xs|;
      var t1 := (h1 % 4) as real / 4.0;
      var t2 := (h2 % 4) as real / 4.0;
      assert t1 <= t2;
      var w := xs[j + 1] - xs[j];
      assert w >= 0.0;
      ScaleMonotone(t1, t2, w);
      var d1, d2 := t1 * w, t2 * w;
      assert d1 <= d2;
      assert QuantileAt(xs, h1) == xs[j] + d1;
      assert QuantileAt(xs, h2) == xs[j] + d2;
    } else {
      QuantileBetween(xs, h2);
    }
  }

  // ---------------------------------------------------------------------
  // The fence

  datatype Fence = Fence(lower: real, upper: real)

  /** The first and third quartiles of a group's prices, or `None` when it
      has no price (pandas gives NaN). */
  function Quartiles(group: seq<Row>): (r: Option<(real, real)>)
    ensures r.None? <==> PricesOf(group) == []
  {
    var xs := SortReals(PricesOf(group));
    if |xs| == 0 then None else Some((Q1(xs), Q3(xs)))
  }

  /** `Q1 - 1.5 * IQR` and `Q3 + 1.5 * IQR`. */
  function GroupFence(group: seq<Row>): Option<Fence> {
    match Quartiles(group)
    case None => None
    case Some((q1, q3)) => Some(Fence(q1 - 1.5 * (q3 - q1), q3 + 1.5 * (q3 - q1)))
  }

  /** Both comparisons of `filter_outliers` hold; with a NaN price or NaN
      bounds they are false. */
  predicate Within(r: Row, fence: Option<Fence>) {
    && fence.Some? && r.price.Some?
    && fence.value.lower <= r.price.value <= fence.value.upper
  }

  /** The sorted prices of a group hold exactly its non-NaN prices. */
  lemma SortedPrices(group: seq<Row>)
    ensures multiset(SortReals(PricesOf(group))) == multiset(PricesOf(group))
  {
  }

  /** Q1 is at most Q3 and both lie between the group's least and greatest
      price, so the fence contains every price from Q1 to Q3. */
  lemma QuartileOrder(group: seq<Row>)
    requires Quartiles(group).Some?
    ensures var (q1, q3) := Quartiles(group).value;
            && q1 <= q3
            && (forall p :: p in PricesOf(group) ==> Lowest(PricesOf(group)) <= p <= Highest(PricesOf(group)))
            && Lowest(PricesOf(group)) <= q1
            && q3 <= Highest(PricesOf(group))
            && GroupFence(group).value.lower <= q1
            && q3 <= GroupFence(group).value.upper
  {
    var xs := SortReals(PricesOf(group));
    var n := |xs|;
    QuantileMonotone(xs, n - 1, 3 * (n - 1));
    QuantileBounds(xs, n - 1);
    QuantileBounds(xs, 3 * (n - 1));
    forall p | p in PricesOf(group) ensures xs[0] <= p <= xs[n - 1] {
      assert p in multiset(xs);
      var i :| 0 <= i < n && xs[i] == p;
    }
  }

  /** The least and the greatest of some prices. */
  function Lowest(ps: seq<real>): real
    requires |ps| > 0
  {
    SortReals(ps)[0]
  }

  function Highest(ps: seq<real>): real
    requires |ps| > 0
  {
    SortReals(ps)[|ps| - 1]
  }

  /** Every price between the group's quartiles is kept. */
  lemma InterQuartileKept(group: seq<Row>, r: Row)
    requires Quartiles(group).Some? && r.price.Some?
    requires Quartiles(group).value.0 <= r.price.value <= Quartiles(group).value.1
    ensures Within(r, GroupFence(group))
  {
    QuartileOrder(group);
  }

  lemma {:induction false} PricesOfConstant(group: seq<Row>, c: real)
    requires forall i :: 0 <= i < |group| ==> group[i].price == Some(c)
    ensures |PricesOf(group)| == |group|
    ensures forall i :: 0 <= i < |PricesOf(group)| ==> PricesOf(group)[i] == c
    decreases |group|
  {
    if |group| > 0 {
      PricesOfConstant(group[1..], c);
    }
  }

  /** A group whose prices are all equal has a fence of width zero that
      keeps every row. */
  lemma EqualPricesKept(group: seq<Row>, c: real)
    requires |group| > 0
    requires forall i :: 0 <= i < |group| ==> group[i].price == Some(c)
    ensures GroupFence(group) == Some(Fence(c, c))
    ensures forall i :: 0 <= i < |group| ==> Within(group[i], GroupFence(group))
  {
    PricesOfConstant(group, c);
    var ps := PricesOf(group);
    SortedConstant(ps, c);
    var xs := SortReals(ps);
    ConstantQuantile(xs, |xs| - 1, c);
    ConstantQuantile(xs, 3 * (|xs| - 1), c);
    assert Quartiles(group) == Some((c, c));
  }

  lemma SortedConstant(ps: seq<real>, c: real)
    requires forall i :: 0 <= i < |ps| ==> ps[i] == c
    ensures forall i :: 0 <= i < |SortReals(ps)| ==> SortReals(ps)[i] == c
  {
    var xs := SortReals(ps);
    forall i | 0 <= i < |xs| ensures xs[i] == c {
      assert xs[i] in multiset(ps);
      var j :| 0 <= j < |ps| && ps[j] == xs[i];
    }
  }

  lemma ConstantQuantile(xs: seq<real>, h: nat, c: real)
    requires |xs| > 0 && h <= 4 * (|xs| - 1)
    requires forall i :: 0 <= i < |xs| ==> xs[i] == c
    ensures QuantileAt(xs, h) == c
  {
  }

  // ---------------------------------------------------------------------
  // remove_outliers

  /** `grouped.filter(lambda x: len(x) >= min_listings)`: the rows of the
      groups large enough, in table order. Rows with a missing model are in
      no group and are dropped. */
  predicate InLargeGroup(rows: seq<Row>, minListings: int, r: Row) {
    r.model.Some? && |GroupOf(rows, r.model.value)| >= minListings
  }

  function Floor(rows: seq<Row>, minListings: int): seq<Row> {
    Filter(rows, (r: Row) => InLargeGroup(rows, minListings, r))
  }

  /** `filter_outliers` keeps a row of the filtered table. */
  predicate Kept(valid: seq<Row>, r: Row) {
    r.model.Some? && Within(r, GroupFence(GroupOf(valid, r.model.value)))
  }

  /** The kept rows of each group, groups in key order. */
  function ConcatGroups(valid: seq<Row>, keys: seq<string>, keep: Row -> bool): seq<Row>
    decreases |keys|
  {
    if |keys| == 0 then []
    else Filter(GroupOf(valid, keys[0]), keep) + ConcatGroups(valid, keys[1..], keep)
  }

  /** `groupby('Model').apply(filter_outliers)`: when no group loses a row,
      the result is aligned with the input and keeps its order; otherwise the
      groups' results are concatenated in key order. */
  function FenceStep(valid: seq<Row>): seq<Row> {
    if forall i :: 0 <= i < |valid| ==> Kept(valid, valid[i]) then valid
    else ConcatGroups(valid, Keys(valid), (r: Row) => Kept(valid, r))
  }

  /** `remove_outliers(df, min_listings=...)`: the filtered rows and the
      number of rows removed. */
  function RemoveOutliers(rows: seq<Row>, minListings: int): (r: (seq<Row>, int))
    ensures r.1 == |rows| - |r.0|
  {
    if |rows| == 0 then ([], 0)
    else
      var out := FenceStep(Floor(rows, minListings));
      (out, |rows| - |out|)
  }

  /** A row survives when its model's group is large enough and its price
      lies within the fence of that group's prices. */
  predicate Survives(rows: seq<Row>, minListings: int, r: Row) {
    && InLargeGroup(rows, minListings, r)
    && Within(r, GroupFence(GroupOf(rows, r.model.value)))
  }

  /** The floor keeps whole groups. */
  lemma FloorKeepsGroup(rows: seq<Row>, minListings: int, m: string)
    requires |GroupOf(rows, m)| >= minListings
    ensures GroupOf(Floor(rows, minListings), m) == GroupOf(rows, m)
  {
    FilterFilter(rows, (r: Row) => InLargeGroup(rows, minListings, r), (r: Row) => r.model == Some(m));
  }

  lemma {:induction false} ConcatGroupsCount(valid: seq<Row>, keys: seq<string>, keep: Row -> bool, x: Row)
    requires forall i, j :: 0 <= i < j < |keys| ==> keys[i] != keys[j]
    ensures multiset(ConcatGroups(valid, keys, keep))[x] ==
              if x.model.Some? && x.model.value in keys && keep(x) then multiset(valid)[x] else 0
    decreases |keys|
  {
    if |keys| > 0 {
      ConcatGroupsCount(valid, keys[1..], keep, x);
      FilterCount(GroupOf(valid, keys[0]), keep, x);
      GroupOfCount(valid, keys[0], x);
      assert forall j :: 0 <= j < |keys[1..]| ==> keys[1..][j] != keys[0] by {
        forall j | 0 <= j < |keys[1..]| ensures keys[1..][j] != keys[0] {
          assert keys[1..][j] == keys[j + 1];
        }
      }
      assert forall k :: k in keys <==> k == keys[0] || k in keys[1..];
    }
  }

  lemma DistinctKeys(valid: seq<Row>)
    ensures forall i, j :: 0 <= i < j < |Keys(valid)| ==> Keys(valid)[i] != Keys(valid)[j]
  {
    StrLessIsStrictTotal();
  }

  /** The filter step keeps every copy of each row the fence admits, and
      nothing else. */
  lemma FenceStepCount(valid: seq<Row>, x: Row)
    ensures multiset(FenceStep(valid))[x] == if Kept(valid, x) then multiset(valid)[x] else 0
  {
    var keep := (r: Row) => Kept(valid, r);
    if forall i :: 0 <= i < |valid| ==> Kept(valid, valid[i]) {
      assert forall i :: 0 <= i < |valid| ==> valid[i] != x || Kept(valid, x);
    } else {
      DistinctKeys(valid);
      ConcatGroupsCount(valid, Keys(valid), keep, x);
      assert forall i :: 0 <= i < |valid| && valid[i] == x && x.model.Some? ==> x.model.value in Keys(valid);
    }
  }

  /** Removing outliers keeps, for every row, all of its copies when its
      group is large enough and its price lies within the group's fence, and
      none otherwise: the result is a sub-multiset of the input, every
      kept row is inside its fence, and no row inside its fence is lost. */
  lemma RemoveOutliersCount(rows: seq<Row>, minListings: int, x: Row)
    ensures multiset(RemoveOutliers(rows, minListings).0)[x] ==
              if Survives(rows, minListings, x) then multiset(rows)[x] else 0
  {
    if |rows| > 0 {
      var valid := Floor(rows, minListings);
      FenceStepCount(valid, x);
      FilterCount(rows, (r: Row) => InLargeGroup(rows, minListings, r), x);
      if InLargeGroup(rows, minListings, x) {
        FloorKeepsGroup(rows, minListings, x.model.value);
      }
    }
  }

  /** The default floor of 0 keeps every group: only rows without a model
      are dropped by it. */
  lemma FloorZeroKeepsModels(rows: seq<Row>)
    ensures Floor(rows, 0) == Filter(rows, (r: Row) => r.model.Some?)
  {
    FloorZeroSame(rows, rows);
  }

  lemma {:induction false} FloorZeroSame(rows: seq<Row>, s: seq<Row>)
    ensures Filter(s, (r: Row) => InLargeGroup(rows, 0, r)) == Filter(s, (r: Row) => r.model.Some?)
    decreases |s|
  {
    if |s| > 0 {
      FloorZeroSame(rows, s[1..]);
    }
  }

  /** When the fence removes nothing, the rows that pass the floor come out
      in their original order. */
  lemma NothingFencedKeepsOrder(rows: seq<Row>, minListings: int)
    requires |rows| > 0
    requires forall i :: 0 <= i < |rows| ==> InLargeGroup(rows, minListings, rows[i]) ==> Survives(rows, minListings, rows[i])
    ensures RemoveOutliers(rows, minListings).0 == Floor(rows, minListings)
  {
    var valid := Floor(rows, minListings);
    forall i | 0 <= i < |valid| ensures Kept(valid, valid[i]) {
      assert valid[i] in rows;
      var j :| 0 <= j < |rows| && rows[j] == valid[i];
      FloorKeepsGroup(rows, minListings, valid[i].model.value);
    }
  }

  lemma {:induction false} ConcatGroupsModels(valid: seq<Row>, keys: seq<string>, keep: Row -> bool)
    ensures forall i :: 0 <= i < |ConcatGroups(valid, keys, keep)| ==>
              ConcatGroups(valid, keys, keep)[i].model.Some? && ConcatGroups(valid, keys, keep)[i].model.value in keys
    decreases |keys|
  {
    if |keys| > 0 {
      ConcatGroupsModels(valid, keys[1..], keep);
      var first := Filter(GroupOf(valid, keys[0]), keep);
      var rest := ConcatGroups(valid, keys[1..], keep);
      forall i | 0 <= i < |first| ensures first[i].model == Some(keys[0]) {
        assert first[i] in GroupOf(valid, keys[0]);
      }
      assert forall i :: |first| <= i < |first| + |rest| ==> (first + rest)[i] == rest[i - |first|];
    }
  }

  predicate GroupedInOrder(out: seq<Row>) {
    forall i, j :: 0 <= i < j < |out| ==>
      out[i].model.Some? && out[j].model.Some? &&
      (out[i].model == out[j].model || StrLess(out[i].model.value, out[j].model.value))
  }

  /** The concatenated groups come in ascending model order. */
  lemma {:induction false} ConcatGroupsSorted(valid: seq<Row>, keys: seq<string>, keep: Row -> bool)
    requires SortedBy(keys, StrLess)
    ensures GroupedInOrder(ConcatGroups(valid, keys, keep))
    decreases |keys|
  {
    if |keys| > 0 {
      ConcatGroupsSorted(valid, keys[1..], keep);
      ConcatGroupsModels(valid, keys[1..], keep);
      var first := Filter(GroupOf(valid, keys[0]), keep);
      var rest := ConcatGroups(valid, keys[1..], keep);
      forall i | 0 <= i < |first| ensures first[i].model == Some(keys[0]) {
        assert first[i] in GroupOf(valid, keys[0]);
      }
      forall i | 0 <= i < |rest| ensures StrLess(keys[0], rest[i].model.value) {
        var k :| 0 <= k < |keys[1..]| && keys[1..][k] == rest[i].model.value;
        assert keys[k + 1] == rest[i].model.value;
      }
      JoinGrouped(first, rest, keys[0]);
    }
  }

  lemma JoinGrouped(first: seq<Row>, rest: seq<Row>, k: string)
    requires forall i :: 0 <= i < |first| ==> first[i].model == Some(k)
    requires forall i :: 0 <= i < |rest| ==> rest[i].model.Some? && StrLess(k, rest[i].model.value)
    requires GroupedInOrder(rest)
    ensures GroupedInOrder(first + rest)
  {
    var out := first + rest;
    forall i, j | 0 <= i < j < |out|
      ensures out[i].model.Some? && out[j].model.Some?
      ensures out[i].model == out[j].model || StrLess(out[i].model.value, out[j].model.value)
    {
      if j < |first| {
        assert out[i] == first[i] && out[j] == first[j];
      } else if i < |first| {
        assert out[i] == first[i] && out[j] == rest[j - |first|];
      } else {
        assert out[i] == rest[i - |first|] && out[j] == rest[j - |first|];
      }
    }
  }

  /** When some row is fenced out, the result lists the models in ascending
      order. */
  lemma FencedResultSorted(rows: seq<Row>, minListings: int)
    requires |rows| > 0
    requires exists i :: 0 <= i < |Floor(rows, minListings)| && !Kept(Floor(rows, minListings), Floor(rows, minListings)[i])
    ensures GroupedInOrder(RemoveOutliers(rows, minListings).0)
  {
    var valid := Floor(rows, minListings);
    ConcatGroupsSorted(valid, Keys(valid), (r: Row) => Kept(valid, r));
  }

  /** The cleaned table is a sub-multiset of the input: rows are dropped,
      never added or copied, so the removed count is never negative. */
  lemma RemoveOutliersShrinks(rows: seq<Row>, minListings: int)
    ensures multiset(RemoveOutliers(rows, minListings).0) <= multiset(rows)
    ensures 0 <= RemoveOutliers(rows, minListings).1 <= |rows|
  {
    var out := RemoveOutliers(rows, minListings).0;
    forall x ensures multiset(out)[x] <= multiset(rows)[x] {
      RemoveOutliersCount(rows, minListings, x);
    }
    SubMultisetSize(multiset(out), multiset(rows));
  }
}
