/** The figure and table scripts built on the rolled prices: each takes the
    combined cleaned table, drops rows without a price, selects a model's
    rows by case-insensitive substring, and rolls them over a window of
    distinct dates.

    - Visualisations/figure1.py: one-day window per model;
    - Visualisations/figure2.py: window sizes 1 to 14, the spread of each
      model's rolled series per size;
    - Visualisations/figure4.py: seven-day window, with the earliest date of
      the `iPhone 12` rows dropped first;
    - Tables/table2_fullgrowthratio.py: seven-day window, growth from the
      first to the last rolled price, and an `Average` row;
    - Tables/table5.py: the spread of each model's series for windows of one
      and seven days.

    Spreads are sample variances: `std()` is their square root, and the
    square root, rounding and plotting are not modelled. */
module Reports {
  import opened Wrappers
  import opened Seqs
  import opened Ordering
  import opened Text
  import opened Loader
  import opened Outliers
  import opened Combine
  import opened Stats
  import opened Rolling

  // ---------------------------------------------------------------------
  // Selecting a model's rows

  /** `data.dropna(subset=['listing_price'])`, the `Series` column set
      aside. */
  function Priced(data: seq<SeriesRow>): (rows: seq<Row>)
    ensures |rows| <= |data|
    ensures forall i :: 0 <= i < |rows| ==> rows[i].price.Some?
    decreases |data|
  {
    if |data| == 0 then []
    else (if data[0].row.price.Some? then [data[0].row] else []) + Priced(data[1..])
  }

  /** When every row has a price, dropping the rows without one keeps the
      table whole; by `Combine.CombinedPricesPresent` this is the case for
      every combined cleaned table. */
  lemma {:induction false} PricedKeepsAll(data: seq<SeriesRow>)
    requires forall j :: 0 <= j < |data| ==> data[j].row.price.Some?
    ensures |Priced(data)| == |data|
    ensures forall j :: 0 <= j < |data| ==> Priced(data)[j] == data[j].row
    decreases |data|
  {
    if |data| > 0 {
      PricedKeepsAll(data[1..]);
    }
  }

  /** `data['Model'].str.contains(model, case=False, na=False)`: a missing
      model never matches. */
  predicate OfModel(r: Row, model: string) {
    r.model.Some? && ContainsIgnoreCase(r.model.value, model)
  }

  function ModelData(rows: seq<Row>, model: string): (md: seq<Row>)
    ensures forall i :: 0 <= i < |md| ==> OfModel(md[i], model) && md[i] in rows
  {
    Filter(rows, (r: Row) => OfModel(r, model))
  }

  /** The selection keeps every copy of a matching row and nothing else. */
  lemma ModelDataCount(rows: seq<Row>, model: string, x: Row)
    ensures multiset(ModelData(rows, model))[x] == if OfModel(x, model) then multiset(rows)[x] else 0
  {
    FilterCount(rows, (r: Row) => OfModel(r, model), x);
  }

  /** The substring match takes the longer model names that extend the
      requested one: `iPhone 8` also selects `iPhone 8 Plus`. */
  lemma ExtensionSelected(model: string, rest: string)
    ensures ContainsIgnoreCase(model + rest, model)
  {
    FoldAllAppend(model, rest);
    var f := FoldAll(model + rest);
    assert f[..|model|] == FoldAll(model);
  }

  /** A model's rolled prices over window size `k`. */
  function ModelRolled(rows: seq<Row>, model: string, k: int): (out: seq<Rolled>)
    ensures k >= 1 ==> |out| == (if |UniqueDates(ModelData(rows, model))| < k then 0 else |UniqueDates(ModelData(rows, model))| - k + 1)
  {
    var md := ModelData(rows, model);
    var out := RolledPrices(md, UniqueDates(md), k);
    assert k >= 1 ==> |out| == (if |UniqueDates(md)| < k then 0 else |UniqueDates(md)| - k + 1) by {
      if k >= 1 {
        RolledShape(md, k);
      }
    }
    out
  }

  lemma ModelRolledUnfolds(rows: seq<Row>, model: string, k: int)
    ensures ModelRolled(rows, model, k) == RolledPrices(ModelData(rows, model), UniqueDates(ModelData(rows, model)), k)
    ensures DateCount(rows, model) == |UniqueDates(ModelData(rows, model))|
  {
  }

  /** The number of distinct dates of a model's rows. */
  function DateCount(rows: seq<Row>, model: string): nat {
    |UniqueDates(ModelData(rows, model))|
  }

  lemma MeanPresent(rows: seq<Row>)
    requires |rows| > 0
    requires forall i :: 0 <= i < |rows| ==> rows[i].price.Some?
    ensures Mean(rows).Some?
  {
  }

  /** On priced rows with `k >= 1`: there are `n - k + 1` rolled prices for
      `n` distinct dates, each a number, the `j`-th dated on the
      `(j + k)`-th date. */
  lemma ModelRolledShape(rows: seq<Row>, model: string, k: nat)
    requires 1 <= k
    requires forall i :: 0 <= i < |rows| ==> rows[i].price.Some?
    ensures var out := ModelRolled(rows, model, k);
            var days := UniqueDates(ModelData(rows, model));
            && |out| == (if |days| < k then 0 else |days| - k + 1)
            && forall j :: 0 <= j < |out| ==> out[j].date == days[j + k - 1] && out[j].price.Some?
  {
    hide *;
    ModelRolledUnfolds(rows, model, k);
    var md := ModelData(rows, model);
    var days := UniqueDates(md);
    var out := ModelRolled(rows, model, k);
    RolledShape(md, k);
    forall i | 0 <= i < |md| ensures md[i].price.Some? {
      assert md[i] in rows;
    }
    forall j | 0 <= j < |out| ensures out[j].date == days[j + k - 1] && out[j].price.Some? {
      WindowHasRows(md, j + k - 1, k);
      assert (j + k - 1) - k + 1 == j && (j + k - 1) + 1 == j + k;
      WindowMeanPresent(md, days[j .. j + k]);
    }
  }

  /** A window holding priced rows has a mean. */
  lemma WindowMeanPresent(rows: seq<Row>, dates: seq<int>)
    requires forall i :: 0 <= i < |rows| ==> rows[i].price.Some?
    requires |RowsOn(rows, dates)| > 0
    ensures Mean(RowsOn(rows, dates)).Some?
  {
    var w := RowsOn(rows, dates);
    forall i | 0 <= i < |w| ensures w[i].price.Some? {
      assert w[i] in rows;
    }
    MeanPresent(w);
  }

  // ---------------------------------------------------------------------
  // Figure 1: daily averages of the iPhone 12 models

  /** One rolled series per model, over a one-day window. */
  function Figure1(data: seq<SeriesRow>, models: seq<string>): (r: seq<seq<Rolled>>)
    ensures |r| == |models|
  {
    seq(|models|, i requires 0 <= i < |models| => ModelRolled(Priced(data), models[i], 1))
  }

  /** Each model's series has one point per distinct date of its rows, in
      ascending date order, and the point is the mean price of that day's
      rows. */
  lemma Figure1DailyMeans(data: seq<SeriesRow>, models: seq<string>, i: nat)
    requires i < |models|
    ensures var md := ModelData(Priced(data), models[i]);
            var out := Figure1(data, models)[i];
            && |out| == |UniqueDates(md)|
            && (forall j :: 0 <= j < |out| ==>
                  out[j] == Rolled(UniqueDates(md)[j], Mean(RowsOn(md, [UniqueDates(md)[j]]))))
            && (forall a, b :: 0 <= a < b < |out| ==> out[a].date < out[b].date)
  {
    DailyMeans(ModelData(Priced(data), models[i]));
  }

  // ---------------------------------------------------------------------
  // Figure 2: spread of the rolled series for window sizes 1 to 14

  /** The spread of a non-empty rolled series. */
  function Spread(out: seq<Rolled>): Option<real> {
    SampleVariance(Present(PricesOfRolled(out)))
  }

  function PricesOfRolled(out: seq<Rolled>): (ps: seq<Option<real>>)
    ensures |ps| == |out|
    ensures forall j :: 0 <= j < |out| ==> ps[j] == out[j].price
  {
    seq(|out|, j requires 0 <= j < |out| => out[j].price)
  }

  /** `std_devs` for one window size: a value for each model whose rolled
      series is not empty, in model order. */
  function SweepAt(rows: seq<Row>, models: seq<string>, k: int): seq<Option<real>>
    decreases |models|
  {
    if |models| == 0 then []
    else
      var out := ModelRolled(rows, models[0], k);
      (if |out| > 0 then [Spread(out)] else []) + SweepAt(rows, models[1..], k)
  }

  /** The distinct-date count of each model, in model order. */
  function DateCounts(rows: seq<Row>, models: seq<string>): (cs: seq<nat>)
    ensures |cs| == |models|
    ensures forall i :: 0 <= i < |models| ==> cs[i] == DateCount(rows, models[i])
  {
    seq(|models|, i requires 0 <= i < |models| => DateCount(rows, models[i]))
  }

  /** The number of counts of at least `k`. */
  function Reach(counts: seq<nat>, k: int): nat
    decreases |counts|
  {
    if |counts| == 0 then 0
    else (if counts[0] >= k then 1 else 0) + Reach(counts[1..], k)
  }

  /** A model contributes to the sweep at window size `k` exactly when it
      has at least `k` distinct dates. */
  lemma {:induction false} SweepAtCount(rows: seq<Row>, models: seq<string>, k: nat)
    requires 1 <= k
    requires forall i :: 0 <= i < |rows| ==> rows[i].price.Some?
    ensures |SweepAt(rows, models, k)| == Reach(DateCounts(rows, models), k)
    decreases |models|
  {
    if |models| > 0 {
      ModelRolledShape(rows, models[0], k);
      SweepAtCount(rows, models[1..], k);
      assert DateCounts(rows, models)[1..] == DateCounts(rows, models[1..]);
    }
  }

  /** Fewer counts reach a larger size, and as many reach both sizes
      exactly when no count lies in between. */
  lemma {:induction false} ReachMonotone(counts: seq<nat>, k1: int, k2: int)
    requires k1 <= k2
    ensures Reach(counts, k2) <= Reach(counts, k1)
    ensures Reach(counts, k2) == Reach(counts, k1) <==> forall i :: 0 <= i < |counts| ==> !(k1 <= counts[i] < k2)
    decreases |counts|
  {
    if |counts| > 0 {
      ReachMonotone(counts[1..], k1, k2);
      assert forall i :: 0 < i < |counts| ==> counts[i] == counts[1..][i - 1];
    }
  }

  /** The reach of every size from 1 to 14 lies between the reach of 14
      and the reach of 1. */
  lemma ReachBetween(counts: seq<nat>, k: int)
    requires 1 <= k <= 14
    ensures Reach(counts, 14) <= Reach(counts, k) <= Reach(counts, 1)
  {
    ReachMonotone(counts, 1, k);
    ReachMonotone(counts, k, 14);
  }

  /** The window sizes of the sweep. */
  const WINDOW_SIZES: seq<int> := [1, 2, 3, 4, 5, 6, 7, 8, 9, 10, 11, 12, 13, 14]

  datatype ReportError =
      /** `pd.DataFrame` of a dict of lists raises when the lists differ in
          length. */
    | UnequalColumns
      /** The `Average` row reads a column of an empty table. */
    | NoRows
      /** A column the script reads is not in the combined table: `KeyError`. */
    | NoSuchColumn(column: string)

  /** The sweep over the window sizes, one list per size. */
  function Sweep(rows: seq<Row>, models: seq<string>): (cols: seq<seq<Option<real>>>)
    ensures |cols| == |WINDOW_SIZES|
    ensures forall i :: 0 <= i < |cols| ==> cols[i] == SweepAt(rows, models, WINDOW_SIZES[i])
  {
    seq(|WINDOW_SIZES|, i requires 0 <= i < |WINDOW_SIZES| => SweepAt(rows, models, WINDOW_SIZES[i]))
  }

  predicate SameLengths(cols: seq<seq<Option<real>>>) {
    forall i :: 0 <= i < |cols| ==> |cols[i]| == |cols[0]|
  }

  /** `std_devs_by_days` as the table given to the box plot: one column per
      window size. */
  function Figure2(data: seq<SeriesRow>, models: seq<string>): (r: Result<seq<seq<Option<real>>>, ReportError>)
    ensures r.Success? ==> |r.value| == |WINDOW_SIZES|
  {
    var cols := Sweep(Priced(data), models);
    if SameLengths(cols) then Success(cols) else Failure(UnequalColumns)
  }

  /** Each column of the sweep has one value per model reaching its size. */
  lemma SweepLengths(rows: seq<Row>, models: seq<string>)
    requires forall i :: 0 <= i < |rows| ==> rows[i].price.Some?
    ensures forall i :: 0 <= i < |WINDOW_SIZES| ==> |Sweep(rows, models)[i]| == Reach(DateCounts(rows, models), i + 1)
  {
    assert forall i :: 0 <= i < |WINDOW_SIZES| ==> WINDOW_SIZES[i] == i + 1;
    forall i | 0 <= i < |WINDOW_SIZES| ensures |Sweep(rows, models)[i]| == Reach(DateCounts(rows, models), i + 1) {
      SweepAtCount(rows, models, i + 1);
    }
  }

  /** Columns whose lengths are the reach of sizes 1 to 14 have equal
      lengths exactly when no count lies between 1 and 13. */
  lemma SameLengthsIff(cols: seq<seq<Option<real>>>, counts: seq<nat>)
    requires |cols| == 14
    requires forall i :: 0 <= i < 14 ==> |cols[i]| == Reach(counts, i + 1)
    ensures SameLengths(cols) <==> forall i :: 0 <= i < |counts| ==> !(1 <= counts[i] < 14)
  {
    ReachMonotone(counts, 1, 14);
    if SameLengths(cols) {
      assert |cols[13]| == |cols[0]|;
    } else {
      var i :| 0 <= i < 14 && |cols[i]| != |cols[0]|;
      ReachBetween(counts, i + 1);
    }
    if Reach(counts, 14) == Reach(counts, 1) {
      forall i | 0 <= i < 14 ensures |cols[i]| == |cols[0]| {
        ReachBetween(counts, i + 1);
      }
    }
  }

  /** The box-plot table can be built exactly when no model has between 1
      and 13 distinct dates: otherwise it drops out of the sweep part way
      and the columns differ in length. */
  lemma Figure2Builds(data: seq<SeriesRow>, models: seq<string>)
    ensures Figure2(data, models).Success? <==>
              forall i :: 0 <= i < |models| ==> !(1 <= DateCount(Priced(data), models[i]) < 14)
  {
    var rows := Priced(data);
    SweepLengths(rows, models);
    SameLengthsIff(Sweep(rows, models), DateCounts(rows, models));
  }

  // ---------------------------------------------------------------------
  // Figure 4: seven-day averages, iPhone 12 without its first day

  /** `model_data[model_data['Date'] > model_data['Date'].min()]`: the rows
      of the earliest date go, and so do the rows without a date, which
      never compare greater. */
  function TrimEarliest(md: seq<Row>): seq<Row> {
    var days := UniqueDates(md);
    if |days| == 0 then []
    else Filter(md, (r: Row) => r.date.Some? && r.date.value > days[0])
  }

  /** Trimming removes exactly the earliest distinct date. */
  lemma TrimDropsEarliestDate(md: seq<Row>)
    ensures |UniqueDates(md)| > 0 ==> UniqueDates(TrimEarliest(md)) == UniqueDates(md)[1..]
    ensures |UniqueDates(md)| == 0 ==> UniqueDates(TrimEarliest(md)) == []
  {
    var days := UniqueDates(md);
    if |days| > 0 {
      var t := TrimEarliest(md);
      forall x ensures x in UniqueDates(t) <==> x in days[1..] {
        if x in UniqueDates(t) {
          TrimmedDateLater(md, x);
        }
        if x in days[1..] {
          LaterDateKept(md, x);
        }
      }
      IntLessIsStrictTotal();
      assert SortedBy(UniqueDates(t), IntLess);
      assert SortedBy(days[1..], IntLess);
      SortedUnique(UniqueDates(t), days[1..], IntLess);
    }
  }

  lemma TrimmedDateLater(md: seq<Row>, x: int)
    requires |UniqueDates(md)| > 0
    requires x in UniqueDates(TrimEarliest(md))
    ensures x in UniqueDates(md)[1..]
  {
    var days := UniqueDates(md);
    var t := TrimEarliest(md);
    var i :| 0 <= i < |t| && t[i].date == Some(x);
    assert t[i] in md;
    var j :| 0 <= j < |md| && md[j] == t[i];
    var k :| 0 <= k < |days| && days[k] == x;
    assert k != 0;
    assert days[1..][k - 1] == x;
  }

  lemma LaterDateKept(md: seq<Row>, x: int)
    requires |UniqueDates(md)| > 0
    requires x in UniqueDates(md)[1..]
    ensures x in UniqueDates(TrimEarliest(md))
  {
    var days := UniqueDates(md);
    var t := TrimEarliest(md);
    var p := (r: Row) => r.date.Some? && r.date.value > days[0];
    var k :| 0 <= k < |days[1..]| && days[1..][k] == x;
    assert days[0] < days[k + 1];
    var j :| 0 <= j < |md| && md[j].date == Some(x);
    FilterCount(md, p, md[j]);
    assert md[j] in multiset(md);
    assert md[j] in multiset(t);
  }

  const TRIMMED_MODEL := "iPhone 12"

  function Figure4Data(rows: seq<Row>, model: string): seq<Row> {
    var md := ModelData(rows, model);
    if model == TRIMMED_MODEL then TrimEarliest(md) else md
  }

  /** One seven-day rolled series per model. */
  function Figure4(data: seq<SeriesRow>, models: seq<string>): (r: seq<seq<Rolled>>)
    ensures |r| == |models|
  {
    var rows := Priced(data);
    seq(|models|, i requires 0 <= i < |models| =>
      RolledPrices(Figure4Data(rows, models[i]), UniqueDates(Figure4Data(rows, models[i])), 7))
  }

  /** A series starts at the model's seventh distinct date, and for the
      trimmed `iPhone 12` at the eighth distinct date of its untrimmed
      rows. */
  lemma Figure4Start(data: seq<SeriesRow>, models: seq<string>, i: nat)
    requires i < |models|
    ensures var days := UniqueDates(ModelData(Priced(data), models[i]));
            var skip := if models[i] == TRIMMED_MODEL then 1 else 0;
            var out := Figure4(data, models)[i];
            && |out| == (if |days| < 7 + skip then 0 else |days| - 6 - skip)
            && (|out| > 0 ==> out[0].date == days[6 + skip])
  {
    var rows := Priced(data);
    var md := ModelData(rows, models[i]);
    var fd := Figure4Data(rows, models[i]);
    RolledShape(fd, 7);
    if models[i] == TRIMMED_MODEL {
      TrimDropsEarliestDate(md);
    }
  }

  // ---------------------------------------------------------------------
  // Table 2: growth over the seven-day series

  datatype GrowthRow = GrowthRow(
    model: string,
    first: Option<real>,
    last: Option<real>,
    difference: Option<real>,
    ratio: Option<real>,
    spread: Option<real>)

  /** Arithmetic on possibly-NaN values. */
  function Minus(a: Option<real>, b: Option<real>): Option<real> {
    if a.Some? && b.Some? then Some(a.value - b.value) else None
  }

  /** `last_price / first_price if first_price != 0 else np.nan`: a NaN first
      price is not zero and propagates through the division. */
  function Ratio(last: Option<real>, first: Option<real>): (r: Option<real>)
    ensures first == Some(0.0) ==> r.None?
    ensures last.Some? && first.Some? && first.value != 0.0 ==> r == Some(last.value / first.value)
  {
    if first == Some(0.0) then None
    else if last.Some? && first.Some? then Some(last.value / first.value)
    else None
  }

  function Growth(model: string, out: seq<Rolled>): GrowthRow
    requires |out| > 0
  {
    var first := out[0].price;
    var last := out[|out| - 1].price;
    GrowthRow(model, first, last, Minus(last, first), Ratio(last, first), Spread(out))
  }

  /** A row for each model whose seven-day series is not empty. */
  function GrowthRows(rows: seq<Row>, models: seq<string>): seq<GrowthRow>
    decreases |models|
  {
    if |models| == 0 then []
    else
      var out := ModelRolled(rows, models[0], 7);
      (if |out| > 0 then [Growth(models[0], out)] else []) + GrowthRows(rows, models[1..])
  }

  function Column(rs: seq<GrowthRow>, f: GrowthRow -> Option<real>): (c: seq<Option<real>>)
    ensures |c| == |rs|
    ensures forall i :: 0 <= i < |rs| ==> c[i] == f(rs[i])
  {
    seq(|rs|, i requires 0 <= i < |rs| => f(rs[i]))
  }

  const AVERAGE := "Average"

  /** `ratios_df.mean(numeric_only=True)` labelled `Average`. */
  function AverageRow(rs: seq<GrowthRow>): GrowthRow {
    GrowthRow(AVERAGE,
      ColumnMean(Column(rs, (g: GrowthRow) => g.first)),
      ColumnMean(Column(rs, (g: GrowthRow) => g.last)),
      ColumnMean(Column(rs, (g: GrowthRow) => g.difference)),
      ColumnMean(Column(rs, (g: GrowthRow) => g.ratio)),
      ColumnMean(Column(rs, (g: GrowthRow) => g.spread)))
  }

  /** The saved table: the growth rows followed by the `Average` row. With
      no growth row the table has no columns and reading one fails. */
  function Table2(data: seq<SeriesRow>, models: seq<string>): (r: Result<seq<GrowthRow>, ReportError>)
    ensures r.Success? ==> |r.value| > 0 && r.value[|r.value| - 1].model == AVERAGE
  {
    var rs := GrowthRows(Priced(data), models);
    if |rs| == 0 then Failure(NoRows) else Success(rs + [AverageRow(rs)])
  }

  /** A model gets a growth row exactly when it has at least seven distinct
      dates. */
  lemma {:induction false} GrowthRowsCount(rows: seq<Row>, models: seq<string>)
    requires forall i :: 0 <= i < |rows| ==> rows[i].price.Some?
    ensures |GrowthRows(rows, models)| == Reach(DateCounts(rows, models), 7)
    decreases |models|
  {
    if |models| > 0 {
      ModelRolledShape(rows, models[0], 7);
      GrowthRowsCount(rows, models[1..]);
      assert DateCounts(rows, models)[1..] == DateCounts(rows, models[1..]);
    }
  }

  lemma Table2Rows(data: seq<SeriesRow>, models: seq<string>)
    ensures Table2(data, models).Success? <==> Reach(DateCounts(Priced(data), models), 7) > 0
    ensures Table2(data, models).Success? ==> |Table2(data, models).value| == Reach(DateCounts(Priced(data), models), 7) + 1
  {
    GrowthRowsCount(Priced(data), models);
  }

  /** A model's growth compares the mean price over its first seven
      distinct dates with the mean over its last seven, and the ratio is
      NaN exactly when the first is zero. */
  lemma GrowthOfModel(rows: seq<Row>, model: string)
    requires forall i :: 0 <= i < |rows| ==> rows[i].price.Some?
    requires DateCount(rows, model) >= 7
    ensures var md := ModelData(rows, model);
            var days := UniqueDates(md);
            var out := ModelRolled(rows, model, 7);
            && |days| >= 7 && |out| > 0
            && var g := Growth(model, out);
               && g.first == Mean(RowsOn(md, days[0 .. 7]))
               && g.last == Mean(RowsOn(md, days[|days| - 7 ..]))
               && g.first.Some? && g.last.Some?
               && g.difference == Some(g.last.value - g.first.value)
               && (g.ratio.None? <==> g.first.value == 0.0)
  {
    hide *;
    ModelRolledUnfolds(rows, model, 7);
    var md := ModelData(rows, model);
    var days := UniqueDates(md);
    RolledShape(md, 7);
    ModelRolledShape(rows, model, 7);
    GrowthOfSeries(model, md, days, ModelRolled(rows, model, 7));
  }

  /** The growth of a seven-day series read off its first and last
      windows. */
  lemma GrowthOfSeries(model: string, md: seq<Row>, days: seq<int>, out: seq<Rolled>)
    requires |days| >= 7
    requires |out| == |days| - 6
    requires forall j :: 0 <= j < |out| ==> out[j].date == days[j + 6] && out[j].price.Some?
    requires forall j :: 0 <= j < |out| ==> out[j] == Rolled(days[j + 6], Mean(RowsOn(md, days[j .. j + 7])))
    ensures var g := Growth(model, out);
            && g.first == Mean(RowsOn(md, days[0 .. 7]))
            && g.last == Mean(RowsOn(md, days[|days| - 7 ..]))
            && g.first.Some? && g.last.Some?
            && g.difference == Some(g.last.value - g.first.value)
            && (g.ratio.None? <==> g.first.value == 0.0)
  {
    assert out[0] == Rolled(days[6], Mean(RowsOn(md, days[0 .. 7])));
    var n := |out|;
    assert out[n - 1] == Rolled(days[n + 5], Mean(RowsOn(md, days[n - 1 .. n + 6])));
    assert days[n - 1 .. n + 6] == days[|days| - 7 ..];
  }

  /** Both prices are numbers and the difference is theirs. */
  predicate Complete(g: GrowthRow) {
    g.first.Some? && g.last.Some? && g.difference == Some(g.last.value - g.first.value)
  }

  lemma GrowthComplete(model: string, out: seq<Rolled>)
    requires |out| > 0
    requires forall j :: 0 <= j < |out| ==> out[j].price.Some?
    ensures Complete(Growth(model, out))
  {
  }

  lemma {:induction false} GrowthRowsComplete(rows: seq<Row>, models: seq<string>)
    requires forall i :: 0 <= i < |rows| ==> rows[i].price.Some?
    ensures forall j :: 0 <= j < |GrowthRows(rows, models)| ==> Complete(GrowthRows(rows, models)[j])
    decreases |models|
  {
    hide *;
    if |models| == 0 {
      GrowthRowsStep(rows, models);
    } else {
      var out := ModelRolled(rows, models[0], 7);
      ModelRolledShape(rows, models[0], 7);
      if |out| > 0 {
        GrowthComplete(models[0], out);
      }
      GrowthRowsComplete(rows, models[1..]);
      var rest := GrowthRows(rows, models[1..]);
      var head := if |out| > 0 then [Growth(models[0], out)] else [];
      GrowthRowsStep(rows, models);
      assert forall j :: |head| <= j < |head| + |rest| ==> (head + rest)[j] == rest[j - |head|];
    }
  }

  lemma GrowthRowsStep(rows: seq<Row>, models: seq<string>)
    ensures |models| == 0 ==> GrowthRows(rows, models) == []
    ensures |models| > 0 ==>
              var out := ModelRolled(rows, models[0], 7);
              GrowthRows(rows, models) == (if |out| > 0 then [Growth(models[0], out)] else []) + GrowthRows(rows, models[1..])
  {
  }

  /** The average difference is the difference of the average last and
      first prices, as the averages are taken before any rounding. */
  lemma AverageDifference(data: seq<SeriesRow>, models: seq<string>)
    requires Table2(data, models).Success?
    ensures var avg := Table2(data, models).value[|Table2(data, models).value| - 1];
            avg.first.Some? && avg.last.Some? && avg.difference == Some(avg.last.value - avg.first.value)
  {
    hide *;
    var rs := GrowthRows(Priced(data), models);
    Table2Average(data, models);
    GrowthRowsComplete(Priced(data), models);
    forall j | 0 <= j < |rs| ensures rs[j].first.Some? && rs[j].last.Some? && rs[j].difference == Some(rs[j].last.value - rs[j].first.value) {
      CompleteParts(rs[j]);
    }
    MeanOfDifferences(
      Column(rs, (g: GrowthRow) => g.last),
      Column(rs, (g: GrowthRow) => g.first),
      Column(rs, (g: GrowthRow) => g.difference));
    PresentAll(Column(rs, (g: GrowthRow) => g.first));
    PresentAll(Column(rs, (g: GrowthRow) => g.last));
  }

  /** A successful table ends with the average of the growth rows. */
  lemma Table2Average(data: seq<SeriesRow>, models: seq<string>)
    ensures var rs := GrowthRows(Priced(data), models);
            Table2(data, models).Success? ==>
              && |rs| > 0
              && Table2(data, models).value[|Table2(data, models).value| - 1] == AverageRow(rs)
              && AverageRow(rs).first == ColumnMean(Column(rs, (g: GrowthRow) => g.first))
              && AverageRow(rs).last == ColumnMean(Column(rs, (g: GrowthRow) => g.last))
              && AverageRow(rs).difference == ColumnMean(Column(rs, (g: GrowthRow) => g.difference))
  {
  }

  lemma CompleteParts(g: GrowthRow)
    requires Complete(g)
    ensures g.first.Some? && g.last.Some? && g.difference == Some(g.last.value - g.first.value)
  {
  }

  // ---------------------------------------------------------------------
  // Table 5: spread of the one-day and seven-day series

  datatype SpreadRow = SpreadRow(model: string, day: Option<real>, week: Option<real>)

  /** `std()` of a rolled series, NaN for an empty one. */
  function SeriesSpread(out: seq<Rolled>): Option<real> {
    if |out| == 0 then None else Spread(out)
  }

  /** One row per listed model, in order. */
  function Table5(data: seq<SeriesRow>, models: seq<string>): (r: seq<SpreadRow>)
    ensures |r| == |models|
    ensures forall i :: 0 <= i < |models| ==> r[i].model == models[i]
  {
    var rows := Priced(data);
    seq(|models|, i requires 0 <= i < |models| =>
      SpreadRow(models[i], SeriesSpread(ModelRolled(rows, models[i], 1)), SeriesSpread(ModelRolled(rows, models[i], 7))))
  }

  /** A spread over window `k` is a number exactly when the series has two
      points, that is when the model has `k + 1` distinct dates. */
  lemma SpreadDefined(rows: seq<Row>, model: string, k: nat)
    requires 1 <= k
    requires forall i :: 0 <= i < |rows| ==> rows[i].price.Some?
    ensures SeriesSpread(ModelRolled(rows, model, k)).Some? <==> DateCount(rows, model) >= k + 1
  {
    var out := ModelRolled(rows, model, k);
    ModelRolledShape(rows, model, k);
    PresentAll(PricesOfRolled(out));
  }

  lemma Table5Defined(data: seq<SeriesRow>, models: seq<string>, i: nat)
    requires i < |models|
    ensures Table5(data, models)[i].day.Some? <==> DateCount(Priced(data), models[i]) >= 2
    ensures Table5(data, models)[i].week.Some? <==> DateCount(Priced(data), models[i]) >= 8
  {
    SpreadDefined(Priced(data), models[i], 1);
    SpreadDefined(Priced(data), models[i], 7);
  }

  // ---------------------------------------------------------------------
  // The scripts as a whole, on the combined table

  /** The first column a script reads. When every series loaded no rows the
      combined table has only its `Series` column, and that read raises
      `KeyError`; otherwise the script goes on with the rows. */
  function ReadTable(c: Combined, column: string): (r: Result<seq<SeriesRow>, ReportError>)
    ensures r.Success? <==> c.hasColumns
    ensures r.Success? ==> r.value == c.rows
    ensures r.Failure? ==> r.error == NoSuchColumn(column)
  {
    if c.hasColumns then Success(c.rows) else Failure(NoSuchColumn(column))
  }

  /** figure1.py: `dropna` on `listing_price` first, then the rolled series. */
  function Figure1Script(c: Combined, models: seq<string>): (r: Result<seq<seq<Rolled>>, ReportError>)
    ensures r.Failure? <==> !c.hasColumns
    ensures r.Failure? ==> r.error == NoSuchColumn("listing_price")
    ensures r.Success? ==> |r.value| == |models|
    ensures r.Success? ==> r.value == Figure1(c.rows, models)
  {
    var data :- ReadTable(c, "listing_price");
    Success(Figure1(data, models))
  }

  /** figure2.py: `dropna` on `price` first, then the sweep. */
  function Figure2Script(c: Combined, models: seq<string>): (r: Result<seq<seq<Option<real>>>, ReportError>)
    ensures !c.hasColumns ==> r == Failure(NoSuchColumn("price"))
    ensures c.hasColumns ==> r == Figure2(c.rows, models)
  {
    var data :- ReadTable(c, "price");
    Figure2(data, models)
  }

  /** figure4.py: `dropna` on `listing_price` first, then the trimmed series. */
  function Figure4Script(c: Combined, models: seq<string>): (r: Result<seq<seq<Rolled>>, ReportError>)
    ensures r.Failure? <==> !c.hasColumns
    ensures r.Failure? ==> r.error == NoSuchColumn("listing_price")
    ensures r.Success? ==> |r.value| == |models|
    ensures r.Success? ==> r.value == Figure4(c.rows, models)
  {
    var data :- ReadTable(c, "listing_price");
    Success(Figure4(data, models))
  }

  /** table2_fullgrowthratio.py: `dropna` on `listing_price` first, then the
      growth table. */
  function Table2Script(c: Combined, models: seq<string>): (r: Result<seq<GrowthRow>, ReportError>)
    ensures !c.hasColumns ==> r == Failure(NoSuchColumn("listing_price"))
    ensures c.hasColumns ==> r == Table2(c.rows, models)
  {
    var data :- ReadTable(c, "listing_price");
    Table2(data, models)
  }

  /** table5.py: `dropna` on `listing_price` first, then the spreads. */
  function Table5Script(c: Combined, models: seq<string>): (r: Result<seq<SpreadRow>, ReportError>)
    ensures r.Failure? <==> !c.hasColumns
    ensures r.Failure? ==> r.error == NoSuchColumn("listing_price")
    ensures r.Success? ==> |r.value| == |models|
    ensures r.Success? ==> forall i :: 0 <= i < |models| ==> r.value[i].model == models[i]
  {
    var data :- ReadTable(c, "listing_price");
    Success(Table5(data, models))
  }
}
