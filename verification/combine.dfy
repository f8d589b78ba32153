/** `get_combined_clean_data` (dataclean.py): every series of a
    series-to-prefixes mapping is loaded, the non-empty ones are cleaned by
    `remove_outliers`, each cleaned table is tagged with its series name,
    and the tables are concatenated in mapping order. The total number of
    removed rows, which the program prints, is returned beside the table. */
module Combine {
  import opened Wrappers
  import opened Seqs
  import opened Loader
  import opened Outliers

  /** A series name with the loader's prefix specification for it; the
      mapping is a Python dict, kept here in insertion order. */
  type Mapping = seq<(string, PrefixSpec)>

  predicate DistinctSeries(mapping: Mapping) {
    forall i, j :: 0 <= i < j < |mapping| ==> mapping[i].0 != mapping[j].0
  }

  datatype CleanError =
    | LoadFailed(error: LoadError)
      /** `groupby(['Model'])` raises `KeyError` on a series that loaded rows
          but whose files never name a `Model` column. */
    | NoModelColumn
      /** `pd.concat` of an empty list raises. */
    | NothingToConcatenate

  /** A row of the combined table: the loaded row plus its `Series` column. */
  datatype SeriesRow = SeriesRow(series: string, row: Row)

  /** What `get_combined_clean_data` returns: the combined rows, the printed
      total of removed rows, and whether the table has the loaded columns
      (`listing_price`, `date`, `Model`). When every series loaded no row,
      each contributes an empty frame with only its `Series` column, and so
      does the concatenation. */
  datatype Combined = Combined(rows: seq<SeriesRow>, removed: int, hasColumns: bool)

  /** `df.assign(Series=series)`. */
  function Tag(series: string, rows: seq<Row>): (r: seq<SeriesRow>)
    ensures |r| == |rows|
    ensures forall i :: 0 <= i < |r| ==> r[i] == SeriesRow(series, rows[i])
  {
    seq(|rows|, i requires 0 <= i < |rows| => SeriesRow(series, rows[i]))
  }

  function Loads(dir: seq<CsvFile>, mapping: Mapping): (r: seq<Result<seq<Row>, LoadError>>)
    ensures |r| == |mapping|
    ensures forall i :: 0 <= i < |mapping| ==> r[i] == LoadAndCombine(dir, mapping[i].1)
  {
    seq(|mapping|, i requires 0 <= i < |mapping| => LoadAndCombine(dir, mapping[i].1))
  }

  /** The dict comprehension that loads every series in order; the first
      load that raises ends it. */
  function LoadAll(dir: seq<CsvFile>, mapping: Mapping): (r: Result<seq<seq<Row>>, CleanError>)
    ensures r.Success? <==> forall i :: 0 <= i < |mapping| ==> LoadAndCombine(dir, mapping[i].1).Success?
    ensures r.Success? ==> |r.value| == |mapping|
    ensures r.Success? ==> forall i :: 0 <= i < |mapping| ==> r.value[i] == LoadAndCombine(dir, mapping[i].1).value
    ensures r.Failure? ==>
              exists i :: FailsFirstAt(Loads(dir, mapping), i) && r.error == LoadFailed(Loads(dir, mapping)[i].error)
  {
    var c := Collect(Loads(dir, mapping));
    if c.Success? then Success(c.value) else Failure(LoadFailed(c.error))
  }

  /** `remove_outliers` as the loop applies it to a series that has a
      `Model` column: an empty table stays empty with nothing removed, any
      other is cleaned. */
  function Cleaned(rows: seq<Row>, minListings: int): (r: (seq<Row>, int))
    ensures |rows| == 0 ==> r == ([], 0)
    ensures multiset(r.0) <= multiset(rows)
    ensures r.1 == |rows| - |r.0| >= 0
  {
    if |rows| == 0 then ([], 0)
    else
      RemoveOutliersShrinks(rows, minListings);
      RemoveOutliers(rows, minListings)
  }

  /** The loop body for one series: an empty table stays empty with nothing
      removed; any other is cleaned, which raises when it has no `Model`
      column to group by. */
  function CleanSeries(rows: seq<Row>, hasModel: bool, minListings: int): (r: Result<(seq<Row>, int), CleanError>)
    ensures r.Failure? <==> |rows| > 0 && !hasModel
    ensures r.Failure? ==> r.error == NoModelColumn
    ensures |rows| == 0 ==> r == Success(([], 0))
    ensures r.Success? ==> multiset(r.value.0) <= multiset(rows) && r.value.1 == |rows| - |r.value.0| >= 0
    ensures r.Success? ==> r.value == Cleaned(rows, minListings)
  {
    if |rows| > 0 && !hasModel then Failure(NoModelColumn) else Success(Cleaned(rows, minListings))
  }

  function TotalRows(loaded: seq<seq<Row>>): (n: nat)
    decreases |loaded|
  {
    if |loaded| == 0 then 0 else |loaded[0]| + TotalRows(loaded[1..])
  }

  /** A per-series cleaning step that reports how many rows it removed. */
  ghost predicate CountsRemoved(clean: seq<Row> -> (seq<Row>, int)) {
    forall rows :: 0 <= clean(rows).1 == |rows| - |clean(rows).0|
  }

  /** The loop body of `get_combined_clean_data` as a step of its own. */
  function Cleaner(minListings: int): (clean: seq<Row> -> (seq<Row>, int))
    ensures CountsRemoved(clean)
    ensures forall rows :: clean(rows) == Cleaned(rows, minListings)
  {
    rows => Cleaned(rows, minListings)
  }

  /** The cleaning loop and the concatenation of the tagged tables, with the
      running total of removed rows, for any cleaning step. */
  function CleanEach(names: seq<string>, loaded: seq<seq<Row>>, clean: seq<Row> -> (seq<Row>, int))
    : (r: (seq<SeriesRow>, int))
    requires |names| == |loaded|
    requires CountsRemoved(clean)
    ensures 0 <= r.1 == TotalRows(loaded) - |r.0|
    ensures forall i :: 0 <= i < |r.0| ==> r.0[i].series in names
    decreases |names|
  {
    if |names| == 0 then ([], 0)
    else
      var c := clean(loaded[0]);
      var rest := CleanEach(names[1..], loaded[1..], clean);
      var out := Tag(names[0], c.0) + rest.0;
      assert forall i :: |c.0| <= i < |out| ==> out[i] == rest.0[i - |c.0|];
      (out, c.1 + rest.1)
  }

  /** The loop of `get_combined_clean_data` with `remove_outliers` as its step. */
  function CleanAll(names: seq<string>, loaded: seq<seq<Row>>, minListings: int): (r: (seq<SeriesRow>, int))
    requires |names| == |loaded|
    ensures 0 <= r.1 == TotalRows(loaded) - |r.0|
    ensures forall i :: 0 <= i < |r.0| ==> r.0[i].series in names
  {
    CleanEach(names, loaded, Cleaner(minListings))
  }

  function SeriesNames(mapping: Mapping): (names: seq<string>)
    ensures |names| == |mapping|
    ensures forall i :: 0 <= i < |mapping| ==> names[i] == mapping[i].0
  {
    seq(|mapping|, i requires 0 <= i < |mapping| => mapping[i].0)
  }

  /** Some series loaded rows but has no `Model` column. */
  predicate SomeSeriesLacksModel(dir: seq<CsvFile>, mapping: Mapping, loaded: seq<seq<Row>>)
    requires |loaded| == |mapping|
  {
    exists i :: 0 <= i < |mapping| && |loaded[i]| > 0 && !HasModelColumn(dir, mapping[i].1)
  }

  /** `get_combined_clean_data(directory, series_prefixes, min_listings)`:
      every series is loaded first, then the loop cleans them, then the
      tagged tables are concatenated. The series names are the keys of a
      dict, hence distinct. */
  function GetCombinedCleanData(dir: seq<CsvFile>, mapping: Mapping, minListings: int)
    : (r: Result<Combined, CleanError>)
    requires DistinctSeries(mapping)
    ensures r.Success? <==>
              && |mapping| > 0 && LoadAll(dir, mapping).Success?
              && !SomeSeriesLacksModel(dir, mapping, LoadAll(dir, mapping).value)
    ensures LoadAll(dir, mapping).Failure? ==> r == Failure(LoadAll(dir, mapping).error)
    ensures LoadAll(dir, mapping).Success? && SomeSeriesLacksModel(dir, mapping, LoadAll(dir, mapping).value) ==>
              r == Failure(NoModelColumn)
    ensures |mapping| == 0 ==> r == Failure(NothingToConcatenate)
    ensures r.Success? ==> 0 <= r.value.removed == TotalRows(LoadAll(dir, mapping).value) - |r.value.rows|
    ensures r.Success? ==> forall i :: 0 <= i < |r.value.rows| ==> r.value.rows[i].series in SeriesNames(mapping)
    ensures r.Success? ==>
              (r.value.hasColumns <==> exists i :: 0 <= i < |mapping| && |LoadAll(dir, mapping).value[i]| > 0)
  {
    var loaded :- LoadAll(dir, mapping);
    if exists i :: 0 <= i < |mapping| && CleanSeries(loaded[i], HasModelColumn(dir, mapping[i].1), minListings).Failure? then
      Failure(NoModelColumn)
    else if |mapping| == 0 then Failure(NothingToConcatenate)
    else
      var c := CleanAll(SeriesNames(mapping), loaded, minListings);
      Success(Combined(c.0, c.1, exists i :: 0 <= i < |loaded| && |loaded[i]| > 0))
  }

  function OfSeries(out: seq<SeriesRow>, s: string): seq<SeriesRow> {
    Filter(out, (x: SeriesRow) => x.series == s)
  }

  lemma TagOfSeries(t: string, rows: seq<Row>, s: string)
    ensures OfSeries(Tag(t, rows), s) == if t == s then Tag(t, rows) else []
  {
    if t == s {
      FilterKeepsAll(Tag(t, rows), (x: SeriesRow) => x.series == s);
    } else {
      FilterKeepsNone(Tag(t, rows), (x: SeriesRow) => x.series == s);
    }
  }

  /** The rows tagged with a series are exactly that series' cleaned table,
      in its order; a name not in the mapping tags nothing. */
  lemma {:induction false} CleanEachSeries(names: seq<string>, loaded: seq<seq<Row>>,
                                           clean: seq<Row> -> (seq<Row>, int), s: string)
    requires |names| == |loaded|
    requires CountsRemoved(clean)
    requires forall i, j :: 0 <= i < j < |names| ==> names[i] != names[j]
    ensures s !in names ==> OfSeries(CleanEach(names, loaded, clean).0, s) == []
    ensures forall i :: 0 <= i < |names| && names[i] == s ==>
              OfSeries(CleanEach(names, loaded, clean).0, s) == Tag(s, clean(loaded[i]).0)
    decreases |names|
  {
    if |names| > 0 {
      var c := clean(loaded[0]);
      var rest := CleanEach(names[1..], loaded[1..], clean);
      FilterAppend(Tag(names[0], c.0), rest.0, (x: SeriesRow) => x.series == s);
      TagOfSeries(names[0], c.0, s);
      CleanEachSeries(names[1..], loaded[1..], clean, s);
      if names[0] == s {
        HeadNotInTail(names);
      } else {
        assert forall i :: 0 < i < |names| ==> names[i] == names[1..][i - 1] && loaded[i] == loaded[1..][i - 1];
      }
    }
  }

  lemma CleanAllSeries(names: seq<string>, loaded: seq<seq<Row>>, minListings: int, s: string)
    requires |names| == |loaded|
    requires forall i, j :: 0 <= i < j < |names| ==> names[i] != names[j]
    ensures s !in names ==> OfSeries(CleanAll(names, loaded, minListings).0, s) == []
    ensures forall i :: 0 <= i < |names| && names[i] == s ==>
              OfSeries(CleanAll(names, loaded, minListings).0, s) == Tag(s, Cleaned(loaded[i], minListings).0)
  {
    CleanEachSeries(names, loaded, Cleaner(minListings), s);
  }

  lemma HeadNotInTail(names: seq<string>)
    requires |names| > 0
    requires forall i, j :: 0 <= i < j < |names| ==> names[i] != names[j]
    ensures names[0] !in names[1..]
    ensures forall i :: 0 <= i < |names| && names[i] == names[0] ==> i == 0
  {
    assert forall j :: 0 <= j < |names[1..]| ==> names[1..][j] == names[j + 1];
  }

  /** Each series of the mapping contributes exactly its own cleaned rows,
      in order, under its own name; an empty series contributes nothing. */
  lemma CombinedSeries(dir: seq<CsvFile>, mapping: Mapping, minListings: int, i: nat)
    requires DistinctSeries(mapping)
    requires i < |mapping|
    requires GetCombinedCleanData(dir, mapping, minListings).Success?
    ensures OfSeries(GetCombinedCleanData(dir, mapping, minListings).value.rows, mapping[i].0)
              == Tag(mapping[i].0, Cleaned(LoadAndCombine(dir, mapping[i].1).value, minListings).0)
    ensures LoadAndCombine(dir, mapping[i].1).value == [] ==>
              OfSeries(GetCombinedCleanData(dir, mapping, minListings).value.rows, mapping[i].0) == []
  {
    var names := SeriesNames(mapping);
    var loaded := LoadAll(dir, mapping).value;
    CleanAllSeries(names, loaded, minListings, mapping[i].0);
  }

  /** A listing appears under a series as often as it was loaded for that
      series when it survives that series' cleaning, and otherwise not. */
  lemma CombinedCount(dir: seq<CsvFile>, mapping: Mapping, minListings: int, i: nat, x: Row)
    requires DistinctSeries(mapping)
    requires i < |mapping|
    requires GetCombinedCleanData(dir, mapping, minListings).Success?
    ensures var rows := LoadAndCombine(dir, mapping[i].1).value;
            multiset(GetCombinedCleanData(dir, mapping, minListings).value.rows)[SeriesRow(mapping[i].0, x)]
              == if |rows| > 0 && Survives(rows, minListings, x) then multiset(rows)[x] else 0
  {
    var out := GetCombinedCleanData(dir, mapping, minListings).value.rows;
    var rows := LoadAndCombine(dir, mapping[i].1).value;
    var s := mapping[i].0;
    var p := (y: SeriesRow) => y.series == s;
    CombinedSeries(dir, mapping, minListings, i);
    FilterCount(out, p, SeriesRow(s, x));
    var cleaned := Cleaned(rows, minListings).0;
    TagCount(s, cleaned, x);
    if |rows| > 0 {
      RemoveOutliersCount(rows, minListings, x);
    }
  }

  lemma TagCount(s: string, rows: seq<Row>, x: Row)
    ensures multiset(Tag(s, rows))[SeriesRow(s, x)] == multiset(rows)[x]
  {
    ImageCount(rows, Tag(s, rows), (r: Row) => SeriesRow(s, r), x);
  }

  /** Every row that survives cleaning has a price: a missing price never
      lies within a fence. */
  lemma CleanedPriced(rows: seq<Row>, minListings: int)
    ensures forall j :: 0 <= j < |Cleaned(rows, minListings).0| ==> Cleaned(rows, minListings).0[j].price.Some?
  {
    var out := Cleaned(rows, minListings).0;
    forall j | 0 <= j < |out| ensures out[j].price.Some? {
      assert out[j] in multiset(out);
      RemoveOutliersCount(rows, minListings, out[j]);
    }
  }

  /** Every cleaning step that keeps only priced rows yields a combined
      table of priced rows. */
  lemma {:induction false} CleanEachPriced(names: seq<string>, loaded: seq<seq<Row>>, clean: seq<Row> -> (seq<Row>, int))
    requires |names| == |loaded|
    requires CountsRemoved(clean)
    requires forall rows, j :: 0 <= j < |clean(rows).0| ==> clean(rows).0[j].price.Some?
    ensures forall j :: 0 <= j < |CleanEach(names, loaded, clean).0| ==> CleanEach(names, loaded, clean).0[j].row.price.Some?
    decreases |names|
  {
    if |names| > 0 {
      var c := clean(loaded[0]);
      CleanEachPriced(names[1..], loaded[1..], clean);
      var out := CleanEach(names, loaded, clean).0;
      assert out == Tag(names[0], c.0) + CleanEach(names[1..], loaded[1..], clean).0;
    }
  }

  lemma CleanAllPriced(names: seq<string>, loaded: seq<seq<Row>>, minListings: int)
    requires |names| == |loaded|
    ensures forall j :: 0 <= j < |CleanAll(names, loaded, minListings).0| ==> CleanAll(names, loaded, minListings).0[j].row.price.Some?
  {
    var clean := Cleaner(minListings);
    forall rows, j | 0 <= j < |clean(rows).0| ensures clean(rows).0[j].price.Some? {
      CleanedPriced(rows, minListings);
    }
    CleanEachPriced(names, loaded, clean);
  }

  /** Every row of the combined table has a price, so the scripts'
      `dropna(subset=['listing_price'])` removes nothing. */
  lemma CombinedPricesPresent(dir: seq<CsvFile>, mapping: Mapping, minListings: int)
    requires DistinctSeries(mapping)
    requires GetCombinedCleanData(dir, mapping, minListings).Success?
    ensures var out := GetCombinedCleanData(dir, mapping, minListings).value.rows;
            forall j :: 0 <= j < |out| ==> out[j].row.price.Some?
  {
    CleanAllPriced(SeriesNames(mapping), LoadAll(dir, mapping).value, minListings);
  }
}
