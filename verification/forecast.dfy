/** The bookkeeping of the ARIMA forecast table (`Tables/table3full.py`):
    model-name normalisation, the mean per (date, model), the daily grid with
    forward fill, the 60/40 split of every column and the grid search over
    ARIMA orders. Fitting, forecasting and the mean absolute error are a
    parameter: a scoring function that yields `None` where the library call
    raises (or gives NaN, which never compares smaller). */
module Forecast {
  import opened Wrappers
  import opened Seqs
  import opened Ordering
  import opened Text
  import opened Loader
  import opened Outliers
  import opened Combine
  import opened Rolling
  import Reports

  // ---------------------------------------------------------------------
  // Model names

  const MINI_PATTERN: string := "mini"
  const MINI: string := "Mini"
  const XR_PATTERN: string := "xr"
  const XR: string := "Xr"

  function MiniCase(m: string): string {
    ReplaceIgnoreCase(m, MINI_PATTERN, MINI)
  }

  function XrCase(m: string): string {
    ReplaceIgnoreCase(m, XR_PATTERN, XR)
  }

  /** The two `str.replace(..., case=False)` calls, in program order. */
  function NormalizeName(m: string): (r: string)
    ensures FoldAll(r) == FoldAll(m)
  {
    ReplaceIgnoreCaseKeepsFold(m, MINI_PATTERN, MINI);
    ReplaceIgnoreCaseKeepsFold(MiniCase(m), XR_PATTERN, XR);
    XrCase(MiniCase(m))
  }

  lemma PatternFacts()
    ensures FoldAll(MINI) == FoldAll(MINI_PATTERN) && FoldAll(XR) == FoldAll(XR_PATTERN)
    ensures NoSelfOverlap(MINI_PATTERN) && NoSelfOverlap(XR_PATTERN)
    ensures forall k :: 0 <= k < |XR_PATTERN| ==> Fold(XR_PATTERN[k]) != Fold(MINI_PATTERN[0])
    ensures forall k :: 0 <= k < |MINI| ==> Fold(MINI[k]) != Fold(XR_PATTERN[0])
  {
    assert FoldAll(MINI_PATTERN) == "mini";
    assert FoldAll(MINI) == "mini";
    assert FoldAll(XR_PATTERN) == "xr";
    assert FoldAll(XR) == "xr";
    forall i | 0 < i < |MINI_PATTERN|
      ensures FoldAll(MINI_PATTERN)[i..] != FoldAll(MINI_PATTERN)[..|MINI_PATTERN| - i]
    {
      assert FoldAll(MINI_PATTERN)[i..][0] != FoldAll(MINI_PATTERN)[..|MINI_PATTERN| - i][0];
    }
    forall i | 0 < i < |XR_PATTERN|
      ensures FoldAll(XR_PATTERN)[i..] != FoldAll(XR_PATTERN)[..|XR_PATTERN| - i]
    {
      assert FoldAll(XR_PATTERN)[i..][0] != FoldAll(XR_PATTERN)[..|XR_PATTERN| - i][0];
    }
  }

  /** After normalisation the `mini` replacement finds nothing left to do,
      and neither does the `xr` one. */
  lemma NormalizedIsStable(m: string)
    ensures MiniCase(NormalizeName(m)) == NormalizeName(m)
    ensures XrCase(NormalizeName(m)) == NormalizeName(m)
  {
    PatternFacts();
    ReplaceIgnoreCaseIdempotent(m, MINI_PATTERN, MINI);
    ReplaceIgnoreCaseUndisturbed(MiniCase(m), MINI_PATTERN, MINI, XR_PATTERN, XR);
    ReplaceIgnoreCaseIdempotent(MiniCase(m), XR_PATTERN, XR);
  }

  /** Normalising a normalised name changes nothing. */
  lemma NormalizeIdempotent(m: string)
    ensures NormalizeName(NormalizeName(m)) == NormalizeName(m)
  {
    NormalizedIsStable(m);
  }

  /** Every case-insensitive `mini` in a normalised name reads `Mini`, and
      every case-insensitive `xr` reads `Xr`. */
  lemma NormalizedOccurrences(m: string, i: nat)
    ensures i + 4 <= |NormalizeName(m)| && FoldAll(NormalizeName(m)[i..i + 4]) == "mini"
      ==> NormalizeName(m)[i..i + 4] == "Mini"
    ensures i + 2 <= |NormalizeName(m)| && FoldAll(NormalizeName(m)[i..i + 2]) == "xr"
      ==> NormalizeName(m)[i..i + 2] == "Xr"
  {
    var n := NormalizeName(m);
    NormalizedIsStable(m);
    PatternFacts();
    assert FoldAll(MINI_PATTERN) == "mini" && FoldAll(XR_PATTERN) == "xr";
    if i + 4 <= |n| && FoldAll(n[i..i + 4]) == "mini" {
      StableMeansReplaced(n, MINI_PATTERN, MINI, i);
    }
    if i + 2 <= |n| && FoldAll(n[i..i + 2]) == "xr" {
      StableMeansReplaced(n, XR_PATTERN, XR, i);
    }
  }

  // ---------------------------------------------------------------------
  // The table after normalisation

  function NormalizeRow(r: Row): (n: Row)
    ensures n.date == r.date && n.price == r.price
    ensures n.model.Some? <==> r.model.Some?
    ensures n.model.Some? ==> FoldAll(n.model.value) == FoldAll(r.model.value)
  {
    match r.model
    case None => r
    case Some(m) => r.(model := Some(NormalizeName(m)))
  }

  /** The combined table with both replacements applied to `Model`; a
      missing model stays missing, and the series label plays no further
      part. */
  function NormalizeRows(data: seq<SeriesRow>): (rows: seq<Row>)
    ensures |rows| == |data|
    ensures forall i :: 0 <= i < |rows| ==> rows[i] == NormalizeRow(data[i].row)
  {
    seq(|data|, i requires 0 <= i < |data| => NormalizeRow(data[i].row))
  }

  // ---------------------------------------------------------------------
  // groupby(['date', 'Model']).agg({'listing_price': 'mean'})

  /** Rows the grouping keeps: a row with a missing date or model belongs to
      no group. */
  predicate Keyed(r: Row) {
    r.date.Some? && r.model.Some?
  }

  predicate HasKey(r: Row, d: int, m: string) {
    r.date == Some(d) && r.model == Some(m)
  }

  function KeyRows(rows: seq<Row>, d: int, m: string): seq<Row> {
    Filter(rows, (r: Row) => HasKey(r, d, m))
  }

  /** The aggregated price of group `(d, m)`: the mean of its prices, NaN
      (here `None`) when it has none. */
  function GroupMean(rows: seq<Row>, d: int, m: string): Option<real> {
    Mean(KeyRows(rows, d, m))
  }

  lemma KeyedMember(rows: seq<Row>, r: Row)
    ensures r in Filter(rows, Keyed) <==> r in rows && Keyed(r)
  {
    FilterMember(rows, Keyed, r);
  }

  /** The dates of the groups, ascending. */
  function KeyDates(rows: seq<Row>): (days: seq<int>)
    ensures Increasing(days)
    ensures forall d :: d in days <==> exists r :: r in rows && Keyed(r) && r.date == Some(d)
  {
    var kept := Filter(rows, Keyed);
    assert forall d :: ((exists r :: r in rows && Keyed(r) && r.date == Some(d))
                      <==> (exists i :: 0 <= i < |kept| && kept[i].date == Some(d)))
    by {
      forall d ensures ((exists r :: r in rows && Keyed(r) && r.date == Some(d))
                     <==> (exists i :: 0 <= i < |kept| && kept[i].date == Some(d)))
      {
        if r :| r in rows && Keyed(r) && r.date == Some(d) {
          KeyedMember(rows, r);
          var i :| 0 <= i < |kept| && kept[i] == r;
        }
      }
    }
    UniqueDates(kept)
  }

  /** The models of the groups in Python's string order: the pivot's
      columns. */
  function KeyModels(rows: seq<Row>): (names: seq<string>)
    ensures SortedBy(names, StrLess)
    ensures forall m :: m in names <==> exists r :: r in rows && Keyed(r) && r.model == Some(m)
  {
    var kept := Filter(rows, Keyed);
    assert forall m :: ((exists r :: r in rows && Keyed(r) && r.model == Some(m))
                      <==> (exists i :: 0 <= i < |kept| && kept[i].model == Some(m)))
    by {
      forall m ensures ((exists r :: r in rows && Keyed(r) && r.model == Some(m))
                     <==> (exists i :: 0 <= i < |kept| && kept[i].model == Some(m)))
      {
        if r :| r in rows && Keyed(r) && r.model == Some(m) {
          KeyedMember(rows, r);
          var i :| 0 <= i < |kept| && kept[i] == r;
        }
      }
    }
    SortedNames(ModelsOf(kept))
  }

  /** One row of the aggregated table. */
  datatype Cell = Cell(date: int, model: string, price: Option<real>)

  /** The cell of every group on day `d`, in the order of `names`. */
  function CellsOn(rows: seq<Row>, d: int, names: seq<string>): (cs: seq<Cell>)
    ensures forall c :: c in cs ==> (c.date == d && c.model in names
                                    && |KeyRows(rows, d, c.model)| > 0 && c.price == GroupMean(rows, d, c.model))
    decreases |names|
  {
    if |names| == 0 then []
    else
      var here := if |KeyRows(rows, d, names[0])| > 0 then [Cell(d, names[0], GroupMean(rows, d, names[0]))] else [];
      here + CellsOn(rows, d, names[1..])
  }

  function CellsOver(rows: seq<Row>, days: seq<int>, names: seq<string>): (cs: seq<Cell>)
    ensures forall c :: c in cs ==> (c.date in days && c.model in names
                                    && |KeyRows(rows, c.date, c.model)| > 0 && c.price == GroupMean(rows, c.date, c.model))
    decreases |days|
  {
    if |days| == 0 then [] else CellsOn(rows, days[0], names) + CellsOver(rows, days[1..], names)
  }

  /** The aggregated table, `reset_index()` included: a cell per group,
      sorted by date and then by model, each holding its group's mean. */
  function Grouped(rows: seq<Row>): (cs: seq<Cell>)
    ensures forall c :: c in cs ==> |KeyRows(rows, c.date, c.model)| > 0 && c.price == GroupMean(rows, c.date, c.model)
  {
    CellsOver(rows, KeyDates(rows), KeyModels(rows))
  }

  /** The order of the aggregated table's keys. */
  predicate CellLess(a: Cell, b: Cell) {
    a.date < b.date || (a.date == b.date && StrLess(a.model, b.model))
  }

  lemma {:induction false} CellsOnSorted(rows: seq<Row>, d: int, names: seq<string>)
    requires SortedBy(names, StrLess)
    ensures SortedBy(CellsOn(rows, d, names), CellLess)
    decreases |names|
  {
    if |names| > 0 {
      CellsOnSorted(rows, d, names[1..]);
      var rest := CellsOn(rows, d, names[1..]);
      forall c | c in rest ensures StrLess(names[0], c.model) {
        var j :| 0 <= j < |names[1..]| && names[1..][j] == c.model;
        assert names[j + 1] == c.model;
      }
    }
  }

  lemma {:induction false} CellsOverSorted(rows: seq<Row>, days: seq<int>, names: seq<string>)
    requires Increasing(days) && SortedBy(names, StrLess)
    ensures SortedBy(CellsOver(rows, days, names), CellLess)
    decreases |days|
  {
    if |days| > 0 {
      CellsOnSorted(rows, days[0], names);
      CellsOverSorted(rows, days[1..], names);
      var here := CellsOn(rows, days[0], names);
      var rest := CellsOver(rows, days[1..], names);
      forall c | c in rest ensures days[0] < c.date {
        var j :| 0 <= j < |days[1..]| && days[1..][j] == c.date;
        assert days[j + 1] == c.date;
      }
      forall i, j | 0 <= i < j < |here + rest| ensures CellLess((here + rest)[i], (here + rest)[j]) {
        if j >= |here| && i < |here| {
          assert (here + rest)[i] in here;
          assert (here + rest)[j] in rest;
        }
      }
    }
  }

  /** Aggregation leaves at most one value per (date, Model). */
  lemma GroupedKeysDistinct(rows: seq<Row>, i: nat, j: nat)
    requires i < j < |Grouped(rows)|
    ensures Grouped(rows)[i].date != Grouped(rows)[j].date || Grouped(rows)[i].model != Grouped(rows)[j].model
  {
    CellsOverSorted(rows, KeyDates(rows), KeyModels(rows));
    StrLessIsStrictTotal();
  }

  lemma {:induction false} CellsOnCovers(rows: seq<Row>, d: int, names: seq<string>, m: string)
    requires m in names && |KeyRows(rows, d, m)| > 0
    ensures exists c :: c in CellsOn(rows, d, names) && c.date == d && c.model == m
    decreases |names|
  {
    if names[0] == m {
      assert Cell(d, m, GroupMean(rows, d, m)) in CellsOn(rows, d, names);
    } else {
      CellsOnCovers(rows, d, names[1..], m);
    }
  }

  lemma {:induction false} CellsOverCovers(rows: seq<Row>, days: seq<int>, names: seq<string>, d: int, m: string)
    requires d in days && m in names && |KeyRows(rows, d, m)| > 0
    ensures exists c :: c in CellsOver(rows, days, names) && c.date == d && c.model == m
    decreases |days|
  {
    if days[0] == d {
      CellsOnCovers(rows, d, names, m);
    } else {
      CellsOverCovers(rows, days[1..], names, d, m);
    }
  }

  /** Every key some row carries has its cell, and every cell's key is
      carried by some row. */
  lemma GroupedCovers(rows: seq<Row>, d: int, m: string)
    ensures (exists c :: c in Grouped(rows) && c.date == d && c.model == m) <==> |KeyRows(rows, d, m)| > 0
  {
    if |KeyRows(rows, d, m)| > 0 {
      var r := KeyRows(rows, d, m)[0];
      assert r in rows && Keyed(r) && r.date == Some(d) && r.model == Some(m);
      CellsOverCovers(rows, KeyDates(rows), KeyModels(rows), d, m);
    }
  }

  // ---------------------------------------------------------------------
  // pivot(index='date', columns='Model') and asfreq('D')

  /** The pivot's entry at `(d, m)`: the price of the cell with that key,
      NaN (here `None`) when there is none. */
  function Lookup(cs: seq<Cell>, d: int, m: string): (v: Option<real>)
    ensures (exists c :: c in cs && c.date == d && c.model == m)
      ==> exists c :: c in cs && c.date == d && c.model == m && c.price == v
    ensures (forall c :: c in cs ==> !(c.date == d && c.model == m)) ==> v.None?
    decreases |cs|
  {
    if |cs| == 0 then None
    else if cs[0].date == d && cs[0].model == m then cs[0].price
    else
      assert forall c :: c in cs && c != cs[0] ==> c in cs[1..];
      Lookup(cs[1..], d, m)
  }

  /** Every entry of the pivot is the mean of its (date, Model) group, and
      NaN where no row has that key. */
  lemma PivotIsGroupMean(rows: seq<Row>, d: int, m: string)
    ensures Lookup(Grouped(rows), d, m) == GroupMean(rows, d, m)
  {
    GroupedCovers(rows, d, m);
  }

  /** The pivot's columns are exactly the models of the aggregated cells. */
  lemma PivotColumns(rows: seq<Row>, m: string)
    ensures m in KeyModels(rows) <==> exists c :: c in Grouped(rows) && c.model == m
  {
    if m in KeyModels(rows) {
      var r :| r in rows && Keyed(r) && r.model == Some(m);
      var d := r.date.value;
      FilterMember(rows, (x: Row) => HasKey(x, d, m), r);
      GroupedCovers(rows, d, m);
    }
  }

  /** `asfreq('D')`: every calendar day from the first grouped date to the
      last; no days when nothing was grouped. */
  function Days(rows: seq<Row>): (days: seq<int>)
    ensures |days| == 0 <==> |KeyDates(rows)| == 0
    ensures forall i :: 0 <= i < |days| ==> days[i] == days[0] + i
    ensures |days| > 0 ==> (days[0] == KeyDates(rows)[0]
                           && days[|days| - 1] == KeyDates(rows)[|KeyDates(rows)| - 1])
    ensures forall d :: d in KeyDates(rows) ==> d in days
  {
    hide *;
    Span(KeyDates(rows))
  }

  /** Every day from the first to the last of increasing dates. */
  function Span(ks: seq<int>): (days: seq<int>)
    requires Increasing(ks)
    ensures |days| == 0 <==> |ks| == 0
    ensures forall i :: 0 <= i < |days| ==> days[i] == days[0] + i
    ensures |days| > 0 ==> days[0] == ks[0] && days[|days| - 1] == ks[|ks| - 1]
    ensures forall d :: d in ks ==> d in days
  {
    if |ks| == 0 then []
    else
      var first := ks[0];
      var last := ks[|ks| - 1];
      var days := seq(last - first + 1, i requires 0 <= i <= last - first => first + i);
      assert forall d :: d in ks ==> first <= d <= last by {
        forall d | d in ks ensures first <= d <= last {
          var j :| 0 <= j < |ks| && ks[j] == d;
        }
      }
      assert forall d :: d in ks ==> d in days by {
        forall d | d in ks ensures d in days {
          assert days[d - first] == d;
        }
      }
      days
  }

  /** A model's column of the daily pivot, before filling. */
  function RawColumn(rows: seq<Row>, m: string): (col: seq<Option<real>>)
    ensures |col| == |Days(rows)|
    ensures forall i :: 0 <= i < |col| ==> col[i] == GroupMean(rows, Days(rows)[i], m)
  {
    var days := Days(rows);
    var grouped := Grouped(rows);
    assert forall i :: 0 <= i < |days| ==> Lookup(grouped, days[i], m) == GroupMean(rows, days[i], m) by {
      forall i | 0 <= i < |days| ensures Lookup(grouped, days[i], m) == GroupMean(rows, days[i], m) {
        PivotIsGroupMean(rows, days[i], m);
      }
    }
    seq(|days|, i requires 0 <= i < |days| => Lookup(grouped, days[i], m))
  }

  // ---------------------------------------------------------------------
  // fillna(method='ffill')

  /** `j` is the latest position up to `i` holding a value. */
  predicate LatestAt(xs: seq<Option<real>>, i: int, j: int) {
    0 <= j <= i < |xs| && xs[j].Some? && forall l :: j < l <= i ==> xs[l].None?
  }

  /** Forward fill: a missing entry takes the latest value above it and
      stays missing when there is none. */
  function FFill(xs: seq<Option<real>>): (r: seq<Option<real>>)
    ensures |r| == |xs|
    ensures forall i :: 0 <= i < |xs| ==> (r[i].None? <==> forall j :: 0 <= j <= i ==> xs[j].None?)
    ensures forall i :: 0 <= i < |xs| && r[i].Some? ==> exists j :: LatestAt(xs, i, j) && r[i] == xs[j]
    decreases |xs|
  {
    if |xs| == 0 then []
    else
      var n := |xs| - 1;
      var front := FFill(xs[..n]);
      var v := if xs[n].Some? then xs[n] else if n == 0 then None else front[n - 1];
      FFillStep(xs, front, v);
      front + [v]
  }

  /** Filling one more entry from the filled front part keeps the fill's
      two properties. */
  lemma FFillStep(xs: seq<Option<real>>, front: seq<Option<real>>, v: Option<real>)
    requires |xs| > 0 && |front| == |xs| - 1
    requires forall i :: 0 <= i < |front| ==> (front[i].None? <==> forall j :: 0 <= j <= i ==> xs[..|front|][j].None?)
    requires forall i :: 0 <= i < |front| && front[i].Some? ==> exists j :: LatestAt(xs[..|front|], i, j) && front[i] == xs[..|front|][j]
    requires v == if xs[|front|].Some? then xs[|front|] else if |front| == 0 then None else front[|front| - 1]
    ensures forall i :: 0 <= i < |xs| ==> ((front + [v])[i].None? <==> forall j :: 0 <= j <= i ==> xs[j].None?)
    ensures forall i :: 0 <= i < |xs| && (front + [v])[i].Some? ==> exists j :: LatestAt(xs, i, j) && (front + [v])[i] == xs[j]
  {
    var n := |front|;
    assert forall j :: 0 <= j < n ==> xs[..n][j] == xs[j];
    assert forall i, j :: 0 <= j <= i < n ==> (LatestAt(xs[..n], i, j) <==> LatestAt(xs, i, j));
    assert v.Some? ==> exists j :: LatestAt(xs, n, j) && v == xs[j] by {
      if xs[n].None? && n > 0 && front[n - 1].Some? {
        var j :| LatestAt(xs[..n], n - 1, j) && front[n - 1] == xs[..n][j];
        assert LatestAt(xs, n, j);
      }
    }
    assert forall i :: 0 <= i < n ==> (front + [v])[i] == front[i];
  }

  /** A model's column of the daily pivot after forward filling. */
  function Filled(rows: seq<Row>, m: string): (col: seq<Option<real>>)
    ensures |col| == |Days(rows)|
  {
    FFill(RawColumn(rows, m))
  }

  lemma FilledIsFilledRaw(rows: seq<Row>, m: string)
    ensures Filled(rows, m) == FFill(RawColumn(rows, m))
  {
  }

  /** A filled entry is the group mean of the latest day up to it whose
      group has a value, and days before the model's first value stay
      missing. */
  lemma FilledFromLatestDay(rows: seq<Row>, m: string, i: nat)
    requires i < |Days(rows)|
    ensures Filled(rows, m)[i].None? <==> forall j :: 0 <= j <= i ==> GroupMean(rows, Days(rows)[j], m).None?
    ensures Filled(rows, m)[i].Some? ==>
              exists j :: (0 <= j <= i
                           && Filled(rows, m)[i] == GroupMean(rows, Days(rows)[j], m)
                           && forall l :: j < l <= i ==> GroupMean(rows, Days(rows)[l], m).None?)
  {
    hide Days, KeyDates, Span, Filled, RawColumn, GroupMean, FFill;
    FilledIsFilledRaw(rows, m);
    var raw := RawColumn(rows, m);
    if Filled(rows, m)[i].Some? {
      var j :| LatestAt(raw, i, j) && Filled(rows, m)[i] == raw[j];
    }
  }

  // ---------------------------------------------------------------------
  // The 60/40 split

  /** `int(n * 0.6)`: for any table length the floating-point product
      truncates to the integer part of `3n/5`. */
  function TrainSize(n: nat): (k: nat)
    ensures 5 * k <= 3 * n < 5 * k + 5
  {
    n * 3 / 5
  }

  /** `iloc[:train_size]` and `iloc[train_size:]`. */
  function Split(col: seq<Option<real>>): (parts: (seq<Option<real>>, seq<Option<real>>))
    ensures parts.0 + parts.1 == col
    ensures |parts.0| == TrainSize(|col|)
  {
    var k := TrainSize(|col|);
    (col[..k], col[k..])
  }

  // ---------------------------------------------------------------------
  // The grid search over ARIMA orders

  datatype Order = Order(p: int, d: int, q: int)

  /** The orders in the order the three nested loops try them. */
  const ORDERS: seq<Order> := [
    Order(1, 1, 7), Order(1, 1, 8), Order(1, 1, 9),
    Order(1, 2, 7), Order(1, 2, 8), Order(1, 2, 9),
    Order(2, 1, 7), Order(2, 1, 8), Order(2, 1, 9),
    Order(2, 2, 7), Order(2, 2, 8), Order(2, 2, 9)
  ]

  /** `p` in `range(1, 3)`, then `d` in `range(1, 3)`, then `q` in
      `range(7, 10)`, the innermost varying fastest. */
  lemma OrdersNested()
    ensures |ORDERS| == 12
    ensures forall i :: 0 <= i < |ORDERS| ==> ORDERS[i] == Order(1 + i / 6, 1 + i / 3 % 2, 7 + i % 3)
  {
  }

  /** The best order found, or none (MAE still `inf`) when every attempt
      raised. */
  datatype Best = NoFit | Fit(order: Order, mae: real)

  /** The result of trying the first `n` orders: the least score so far,
      and among equal least scores the earliest order, since only a
      strictly smaller MAE replaces the best. */
  predicate BestSoFar(score: Order -> Option<real>, n: nat, best: Best)
    requires n <= |ORDERS|
  {
    match best
    case NoFit => forall i :: 0 <= i < n ==> score(ORDERS[i]).None?
    case Fit(o, v) =>
      exists i :: 0 <= i < n && ORDERS[i] == o && score(o) == Some(v)
                  && (forall j :: 0 <= j < n && score(ORDERS[j]).Some? ==> v <= score(ORDERS[j]).value)
                  && (forall j :: 0 <= j < i && score(ORDERS[j]).Some? ==> v < score(ORDERS[j]).value)
  }

  predicate IsBest(score: Order -> Option<real>, best: Best) {
    BestSoFar(score, |ORDERS|, best)
  }

  /** One iteration of the innermost loop: a successful attempt replaces the
      best when nothing was found yet or its MAE is strictly smaller. */
  function Consider(best: Best, o: Order, s: Option<real>): (b: Best)
    ensures s.None? ==> b == best
    ensures b.Fit? && b != best ==> b == Fit(o, s.value)
  {
    match s
    case None => best
    case Some(mae) => if best.NoFit? || mae < best.mae then Fit(o, mae) else best
  }

  lemma ConsiderNext(score: Order -> Option<real>, n: nat, best: Best)
    requires n < |ORDERS|
    requires BestSoFar(score, n, best)
    ensures BestSoFar(score, n + 1, Consider(best, ORDERS[n], score(ORDERS[n])))
  {
    if Consider(best, ORDERS[n], score(ORDERS[n])) != best {
      ConsiderReplaces(score, n, best);
    } else {
      ConsiderKeeps(score, n, best);
    }
  }

  lemma ConsiderReplaces(score: Order -> Option<real>, n: nat, best: Best)
    requires n < |ORDERS|
    requires BestSoFar(score, n, best)
    requires Consider(best, ORDERS[n], score(ORDERS[n])) != best
    ensures BestSoFar(score, n + 1, Consider(best, ORDERS[n], score(ORDERS[n])))
  {
    hide ORDERS;
    var v := score(ORDERS[n]).value;
    assert Consider(best, ORDERS[n], score(ORDERS[n])) == Fit(ORDERS[n], v);
    assert ORDERS[n] == ORDERS[n] && score(ORDERS[n]) == Some(v);
    if best.Fit? {
      var i :| 0 <= i < n && ORDERS[i] == best.order && score(best.order) == Some(best.mae)
               && (forall j :: 0 <= j < n && score(ORDERS[j]).Some? ==> best.mae <= score(ORDERS[j]).value)
               && (forall j :: 0 <= j < i && score(ORDERS[j]).Some? ==> best.mae < score(ORDERS[j]).value);
    }
  }

  lemma ConsiderKeeps(score: Order -> Option<real>, n: nat, best: Best)
    requires n < |ORDERS|
    requires BestSoFar(score, n, best)
    requires Consider(best, ORDERS[n], score(ORDERS[n])) == best
    ensures BestSoFar(score, n + 1, best)
  {
    hide ORDERS;
    if best.Fit? {
      var i :| 0 <= i < n && ORDERS[i] == best.order && score(best.order) == Some(best.mae)
               && (forall j :: 0 <= j < n && score(ORDERS[j]).Some? ==> best.mae <= score(ORDERS[j]).value)
               && (forall j :: 0 <= j < i && score(ORDERS[j]).Some? ==> best.mae < score(ORDERS[j]).value);
      assert 0 <= i < n + 1;
    }
  }

  lemma NothingTriedYet(score: Order -> Option<real>)
    ensures BestSoFar(score, 0, NoFit)
  {
  }

  /** The three nested loops of the grid search. `score` stands for fitting
      `ARIMA(train, order)`, forecasting `len(test)` steps and taking the
      mean absolute error; `None` where any of it raises. */
  method GridSearch(score: Order -> Option<real>) returns (best: Best)
    ensures IsBest(score, best)
  {
    hide BestSoFar;
    OrdersNested();
    NothingTriedYet(score);
    best := NoFit;
    var n := 0;
    var p := 1;
    while p < 3
      invariant 1 <= p <= 3 && n == (p - 1) * 6
      invariant BestSoFar(score, n, best)
    {
      var d := 1;
      while d < 3
        invariant 1 <= d <= 3 && n == (p - 1) * 6 + (d - 1) * 3
        invariant BestSoFar(score, n, best)
      {
        var q := 7;
        while q < 10
          invariant 7 <= q <= 10 && n == (p - 1) * 6 + (d - 1) * 3 + (q - 7)
          invariant BestSoFar(score, n, best)
        {
          assert ORDERS[n] == Order(p, d, q);
          ConsiderNext(score, n, best);
          best := Consider(best, Order(p, d, q), score(Order(p, d, q)));
          n := n + 1;
          q := q + 1;
        }
        d := d + 1;
      }
      p := p + 1;
    }
  }

  /** The search outcome is determined by the scores: two results that both
      meet the description are the same. */
  lemma BestUnique(score: Order -> Option<real>, a: Best, b: Best)
    requires IsBest(score, a) && IsBest(score, b)
    ensures a == b
  {
    if a.Fit? && b.Fit? {
      var i :| 0 <= i < |ORDERS| && ORDERS[i] == a.order && score(a.order) == Some(a.mae)
               && (forall j :: 0 <= j < |ORDERS| && score(ORDERS[j]).Some? ==> a.mae <= score(ORDERS[j]).value)
               && (forall j :: 0 <= j < i && score(ORDERS[j]).Some? ==> a.mae < score(ORDERS[j]).value);
      var k :| 0 <= k < |ORDERS| && ORDERS[k] == b.order && score(b.order) == Some(b.mae)
               && (forall j :: 0 <= j < |ORDERS| && score(ORDERS[j]).Some? ==> b.mae <= score(ORDERS[j]).value)
               && (forall j :: 0 <= j < k && score(ORDERS[j]).Some? ==> b.mae < score(ORDERS[j]).value);
      assert a.mae <= b.mae && b.mae <= a.mae;
      assert i == k;
    }
  }

  // ---------------------------------------------------------------------
  // The evaluation loop over the pivot's columns

  /** Fit, forecast and mean absolute error for one order, given the
      training and test parts of a column. */
  type Scorer = (Order, seq<Option<real>>, seq<Option<real>>) -> Option<real>

  /** The scores of the orders on one filled column, split 60/40. */
  function ScoreOn(score: Scorer, col: seq<Option<real>>): Order -> Option<real> {
    var parts := Split(col);
    (o: Order) => score(o, parts.0, parts.1)
  }

  datatype Evaluation = Evaluation(model: string, best: Best)

  /** The loop over the columns: one search per column, in column order. */
  method SearchEach(columns: seq<string>, scoreOf: string -> (Order -> Option<real>)) returns (results: seq<Evaluation>)
    ensures |results| == |columns|
    ensures forall i :: 0 <= i < |results| ==> results[i].model == columns[i] && IsBest(scoreOf(columns[i]), results[i].best)
  {
    results := [];
    for i := 0 to |columns|
      invariant |results| == i
      invariant forall j :: 0 <= j < i ==> results[j].model == columns[j] && IsBest(scoreOf(columns[j]), results[j].best)
    {
      var best := GridSearch(scoreOf(columns[i]));
      results := results + [Evaluation(columns[i], best)];
    }
  }

  /** The part of `main` before the standardised error: normalise, aggregate,
      pivot daily with forward fill, and search the best order for every
      model column in column order. */
  method EvaluateModels(data: seq<SeriesRow>, score: Scorer) returns (results: seq<Evaluation>)
    ensures |results| == |KeyModels(NormalizeRows(data))|
    ensures forall i :: 0 <= i < |results| ==>
              (results[i].model == KeyModels(NormalizeRows(data))[i]
               && IsBest(ScoreOn(score, Filled(NormalizeRows(data), results[i].model)), results[i].best))
  {
    var rows := NormalizeRows(data);
    results := SearchEach(KeyModels(rows), (m: string) => ScoreOn(score, Filled(rows, m)));
  }

  /** table3full.py's `main`: line 25 reads `Model` first, which raises
      `KeyError` on a combined table that has only its `Series` column;
      otherwise every key model is evaluated. */
  method Table3(c: Combined, score: Scorer) returns (r: Result<seq<Evaluation>, Reports.ReportError>)
    ensures r.Failure? <==> !c.hasColumns
    ensures r.Failure? ==> r.error == Reports.NoSuchColumn("Model")
    ensures r.Success? ==> |r.value| == |KeyModels(NormalizeRows(c.rows))|
    ensures r.Success? ==> forall i :: 0 <= i < |r.value| ==>
              (r.value[i].model == KeyModels(NormalizeRows(c.rows))[i]
               && IsBest(ScoreOn(score, Filled(NormalizeRows(c.rows), r.value[i].model)), r.value[i].best))
  {
    if !c.hasColumns {
      return Failure(Reports.NoSuchColumn("Model"));
    }
    var results := EvaluateModels(c.rows, score);
    return Success(results);
  }
}
