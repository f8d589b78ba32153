/** `calculate_rolled_prices` (Visualisations/figure2.py; the same loop is
    written inline in figure1.py and figure4.py): for every distinct date of
    a model's listings, walk back one day at a time collecting the dates that
    occur, and when `k` of them were found before running past the earliest
    date, emit the mean price of the listings on those dates.

    Dates are day numbers; a row whose date did not parse (NaT) never
    matches a collected date and is ignored. */
module Rolling {
  import opened Wrappers
  import opened Seqs
  import opened Ordering
  import opened Loader
  import opened Outliers
  import opened Stats

  /** One row of the rolled-price table. */
  datatype Rolled = Rolled(date: int, price: Option<real>)

  // ---------------------------------------------------------------------
  // Mean

  /** `Series.mean()`: missing prices are skipped; with no price at all the
      mean is NaN, here `None`. Computed exactly, not in floating point. */
  function Mean(rows: seq<Row>): (m: Option<real>)
    ensures m.None? <==> |PricesOf(rows)| == 0
  {
    var ps := PricesOf(rows);
    if |ps| == 0 then None else Some(Sum(ps) / |ps| as real)
  }

  /** Every price read off the rows is the price of one of them. */
  lemma {:induction false} PricesFromRows(rows: seq<Row>, j: nat)
    requires j < |PricesOf(rows)|
    ensures exists i :: 0 <= i < |rows| && rows[i].price == Some(PricesOf(rows)[j])
    decreases |rows|
  {
    if rows[0].price.Some? && j == 0 {
      assert rows[0].price == Some(PricesOf(rows)[0]);
    } else {
      var j' := if rows[0].price.Some? then j - 1 else j;
      PricesFromRows(rows[1..], j');
      var i :| 0 <= i < |rows[1..]| && rows[1..][i].price == Some(PricesOf(rows[1..])[j']);
      assert rows[i + 1].price == Some(PricesOf(rows)[j]);
    }
  }

  /** The mean lies between any bounds of the prices it averages. */
  lemma MeanBetween(rows: seq<Row>, lo: real, hi: real)
    requires forall i :: 0 <= i < |rows| && rows[i].price.Some? ==> lo <= rows[i].price.value <= hi
    ensures Mean(rows).Some? ==> lo <= Mean(rows).value <= hi
  {
    var ps := PricesOf(rows);
    if |ps| > 0 {
      forall j | 0 <= j < |ps| ensures lo <= ps[j] <= hi {
        PricesFromRows(rows, j);
      }
      SumBetween(ps, lo, hi);
      DivideBetween(Sum(ps), |ps| as real, lo, hi);
    }
  }

  // ---------------------------------------------------------------------
  // Dates

  /** The dates that parsed, in table order, with repetitions. */
  function DatesOf(rows: seq<Row>): (ds: seq<int>)
    ensures forall x :: x in ds <==> exists i :: 0 <= i < |rows| && rows[i].date == Some(x)
    decreases |rows|
  {
    if |rows| == 0 then []
    else
      var rest := DatesOf(rows[1..]);
      assert forall i :: 0 < i < |rows| ==> rows[i] == rows[1..][i - 1];
      match rows[0].date
      case None => rest
      case Some(d) => [d] + rest
  }

  /** `data['Date'].drop_duplicates().sort_values()` without its NaT entry,
      which never yields a rolled price. */
  function UniqueDates(rows: seq<Row>): (days: seq<int>)
    ensures Increasing(days)
    ensures forall x :: x in days <==> exists i :: 0 <= i < |rows| && rows[i].date == Some(x)
  {
    SortedDays(DatesOf(rows))
  }

  /** `data['Date'].isin(dates)`. */
  predicate OnDays(r: Row, dates: seq<int>) {
    r.date.Some? && r.date.value in dates
  }

  function RowsOn(rows: seq<Row>, dates: seq<int>): seq<Row> {
    Filter(rows, (r: Row) => OnDays(r, dates))
  }

  // ---------------------------------------------------------------------
  // Reference definition

  /** The `k` latest dates up to the `i`-th. */
  function Window(days: seq<int>, i: nat, k: int): (w: seq<int>)
    requires 0 <= k <= i + 1 <= |days|
    ensures |w| == k
  {
    days[i - k + 1 .. i + 1]
  }

  /** The entry for the `i`-th date: the `k` latest dates up to it form the
      window, and an entry is emitted when there are that many and some row
      falls in them. */
  function Entry(rows: seq<Row>, days: seq<int>, k: int, i: nat): seq<Rolled>
    requires i < |days|
  {
    if 0 <= k <= i + 1 then
      var relevant := RowsOn(rows, Window(days, i, k));
      if |relevant| > 0 then [Rolled(days[i], Mean(relevant))] else []
    else []
  }

  function RolledUpTo(rows: seq<Row>, days: seq<int>, k: int, n: nat): seq<Rolled>
    requires n <= |days|
    decreases n
  {
    if n == 0 then [] else RolledUpTo(rows, days, k, n - 1) + Entry(rows, days, k, n - 1)
  }

  /** The rolled prices over window size `k`, by the window definition. */
  function RolledPrices(rows: seq<Row>, days: seq<int>, k: int): seq<Rolled> {
    RolledUpTo(rows, days, k, |days|)
  }

  // ---------------------------------------------------------------------
  // The program's day-by-day walk

  /** A date met while walking back, between the last date collected and
      the next earlier one, is that earlier one. */
  lemma DateFound(days: seq<int>, i: nat, count: nat, temp: int)
    requires Increasing(days)
    requires count <= i < |days|
    requires temp in days
    requires count == 0 ==> temp == days[i]
    requires count > 0 ==> temp < days[i - count + 1]
    requires days[i - count] <= temp
    ensures temp == days[i - count]
  {
    var j :| 0 <= j < |days| && days[j] == temp;
  }

  /** The walk stops short of `k` dates only by running past the earliest
      date, and then it has collected every date up to the current one. */
  lemma WalkExhausted(days: seq<int>, i: nat, count: nat, temp: int)
    requires Increasing(days)
    requires i < |days| && count <= i + 1
    requires i - count >= 0 ==> days[i - count] <= temp
    requires temp < days[0]
    ensures count == i + 1
  {
  }

  /** The collected dates, newest first, are the window. */
  lemma CollectedWindow(days: seq<int>, i: nat, k: nat, dateList: seq<int>)
    requires k <= i + 1 < |days| + 1
    requires |dateList| == k
    requires forall m :: 0 <= m < k ==> dateList[m] == days[i - m]
    ensures forall x :: x in dateList <==> x in Window(days, i, k)
  {
    forall x ensures x in dateList <==> x in Window(days, i, k) {
      if x in dateList {
        var m :| 0 <= m < k && dateList[m] == x;
        assert Window(days, i, k)[k - 1 - m] == x;
      }
      if x in Window(days, i, k) {
        var j :| 0 <= j < k && Window(days, i, k)[j] == x;
        assert dateList[k - 1 - j] == x;
      }
    }
  }

  /** The inner `while` loop for the `i`-th date: starting at that date and
      stepping back one day at a time while fewer than `k` dates were found
      and the earliest date is not passed, collect the days that occur. It
      finds `k` dates exactly when there are that many up to the `i`-th, and
      they are then the window of the reference definition. */
  method CollectDates(days: seq<int>, i: nat, k: int) returns (dateList: seq<int>)
    requires Increasing(days)
    requires i < |days|
    ensures |dateList| == k <==> 0 <= k <= i + 1
    ensures |dateList| == k ==> forall x :: x in dateList <==> x in Window(days, i, k)
  {
    var count := 0;
    dateList := [];
    var temp := days[i];
    while count < k && temp >= days[0]
      invariant 0 <= count <= i + 1
      invariant count == 0 || count <= k
      invariant |dateList| == count
      invariant forall m :: 0 <= m < count ==> dateList[m] == days[i - m]
      invariant count == 0 ==> temp == days[i]
      invariant count > 0 ==> temp < days[i - count + 1]
      invariant i - count >= 0 ==> days[i - count] <= temp
      decreases temp - days[0]
    {
      if temp in days {
        DateFound(days, i, count, temp);
        dateList := dateList + [temp];
        count := count + 1;
      }
      temp := temp - 1;
    }
    if count < k {
      WalkExhausted(days, i, count, temp);
    }
    if count == k {
      CollectedWindow(days, i, k, dateList);
    }
  }

  /** `calculate_rolled_prices(data, unique_dates, rollback_days)`, loop for
      loop: it computes the window definition above. */
  method CalculateRolledPrices(rows: seq<Row>, days: seq<int>, k: int) returns (out: seq<Rolled>)
    requires Increasing(days)
    ensures out == RolledPrices(rows, days, k)
  {
    out := [];
    var i := 0;
    while i < |days|
      invariant 0 <= i <= |days|
      invariant out == RolledUpTo(rows, days, k, i)
    {
      var current := days[i];
      var dateList := CollectDates(days, i, k);
      if |dateList| == k {
        assert 0 <= k <= i + 1;
        assert forall x :: x in dateList <==> x in Window(days, i, k);
        var relevant := Filter(rows, (r: Row) => OnDays(r, dateList));
        forall j | 0 <= j < |rows| ensures OnDays(rows[j], dateList) == OnDays(rows[j], Window(days, i, k)) {
          if rows[j].date.Some? {
            assert rows[j].date.value in dateList <==> rows[j].date.value in Window(days, i, k);
          }
        }
        FilterEquivalent(rows, (r: Row) => OnDays(r, dateList), (r: Row) => OnDays(r, Window(days, i, k)));
        if |relevant| > 0 {
          out := out + [Rolled(current, Mean(relevant))];
        }
      }
      i := i + 1;
    }
  }

  // ---------------------------------------------------------------------
  // Properties

  /** A window of size 0 collects no date, matches no row and emits nothing. */
  lemma {:induction false} NoWindowNoPrices(rows: seq<Row>, days: seq<int>, k: int, n: nat)
    requires k <= 0
    requires n <= |days|
    ensures RolledUpTo(rows, days, k, n) == []
    decreases n
  {
    if n > 0 {
      NoWindowNoPrices(rows, days, k, n - 1);
      if k == 0 {
        FilterKeepsNone(rows, (r: Row) => OnDays(r, days[n .. n]));
      }
    }
  }

  /** Every window over the table's own dates holds a row: the row of its
      newest date. */
  lemma WindowHasRows(rows: seq<Row>, i: nat, k: nat)
    requires i < |UniqueDates(rows)|
    requires 1 <= k <= i + 1
    ensures |RowsOn(rows, UniqueDates(rows)[i - k + 1 .. i + 1])| > 0
  {
    var days := UniqueDates(rows);
    var w := Window(days, i, k);
    assert days[i] in days;
    var j :| 0 <= j < |rows| && rows[j].date == Some(days[i]);
    assert w[k - 1] == days[i];
    FilterCount(rows, (r: Row) => OnDays(r, w), rows[j]);
    assert rows[j] in multiset(rows);
  }

  /** The window of `k` dates starting at the `j`-th holds a row. */
  predicate WindowFilled(rows: seq<Row>, days: seq<int>, k: nat, j: nat)
    requires j + k <= |days|
  {
    |RowsOn(rows, days[j .. j + k])| > 0
  }

  /** Every window over the dates holds a row. */
  predicate WindowsFilled(rows: seq<Row>, days: seq<int>, k: nat) {
    forall j: nat :: j + k <= |days| ==> WindowFilled(rows, days, k, j)
  }

  /** When every window holds a row and `k >= 1`, the `j`-th rolled price is
      dated on the `(j + k)`-th date and averages the listings of the `k`
      dates ending there; there are `n - k + 1` of them. */
  lemma {:induction false} RolledUpToShape(rows: seq<Row>, days: seq<int>, k: nat, n: nat)
    requires 1 <= k
    requires n <= |days|
    requires WindowsFilled(rows, days, k)
    ensures |RolledUpTo(rows, days, k, n)| == (if n < k then 0 else n - k + 1)
    ensures forall j :: 0 <= j < |RolledUpTo(rows, days, k, n)| ==> RolledUpTo(rows, days, k, n)[j] == WindowMean(rows, days, k, j)
    decreases n
  {
    hide *;
    if n == 0 {
      NothingRolledYet(rows, days, k);
    } else {
      RolledUpToShape(rows, days, k, n - 1);
      FilledStep(rows, days, k, n);
      var prev := RolledUpTo(rows, days, k, n - 1);
      var e := if n >= k then [WindowMean(rows, days, k, n - k)] else [];
      var out := RolledUpTo(rows, days, k, n);
      assert out == prev + e;
      forall j | 0 <= j < |out| ensures out[j] == WindowMean(rows, days, k, j) {
        if j < |prev| {
          assert out[j] == prev[j];
        } else {
          assert j == n - k && out[j] == e[0];
        }
      }
    }
  }

  lemma NothingRolledYet(rows: seq<Row>, days: seq<int>, k: int)
    ensures RolledUpTo(rows, days, k, 0) == []
  {
  }

  /** The rolled price of the window of `k` dates starting at the `j`-th. */
  function WindowMean(rows: seq<Row>, days: seq<int>, k: nat, j: nat): Rolled
    requires 1 <= k && j + k <= |days|
  {
    Rolled(days[j + k - 1], Mean(RowsOn(rows, days[j .. j + k])))
  }

  /** With every window filled, the `m`-th date emits the mean over the
      `k` dates ending there once there are that many. */
  lemma FilledStep(rows: seq<Row>, days: seq<int>, k: nat, m: nat)
    requires 1 <= k
    requires 0 < m <= |days|
    requires WindowsFilled(rows, days, k)
    ensures RolledUpTo(rows, days, k, m) ==
              RolledUpTo(rows, days, k, m - 1) + if m >= k then [WindowMean(rows, days, k, m - k)] else []
  {
    if m >= k {
      assert WindowFilled(rows, days, k, m - k);
      assert Window(days, m - 1, k) == days[m - k .. m];
    }
  }

  /** With the table's own distinct dates and `k >= 1`, the `j`-th rolled
      price is dated on the `(j + k)`-th distinct date and averages the
      listings of the `k` dates ending there. */
  lemma RolledShape(rows: seq<Row>, k: nat)
    requires 1 <= k
    ensures var out := RolledPrices(rows, UniqueDates(rows), k);
            && |out| == (if |UniqueDates(rows)| < k then 0 else |UniqueDates(rows)| - k + 1)
            && forall j :: 0 <= j < |out| ==>
                 out[j] == Rolled(UniqueDates(rows)[j + k - 1], Mean(RowsOn(rows, UniqueDates(rows)[j .. j + k])))
  {
    var days := UniqueDates(rows);
    forall j: nat | j + k <= |days| ensures WindowFilled(rows, days, k, j) {
      WindowHasRows(rows, j + k - 1, k);
    }
    RolledUpToShape(rows, days, k, |days|);
  }

  /** With a one-day window each distinct date gets its own daily mean. */
  lemma DailyMeans(rows: seq<Row>)
    ensures var out := RolledPrices(rows, UniqueDates(rows), 1);
            && |out| == |UniqueDates(rows)|
            && forall j :: 0 <= j < |out| ==>
                 out[j] == Rolled(UniqueDates(rows)[j], Mean(RowsOn(rows, [UniqueDates(rows)[j]])))
  {
    hide *;
    RolledShape(rows, 1);
    var days := UniqueDates(rows);
    assert forall j :: 0 <= j < |days| ==> days[j .. j + 1] == [days[j]];
  }

  /** The rolled dates are strictly increasing. */
  lemma RolledDatesIncrease(rows: seq<Row>, k: nat)
    requires 1 <= k
    ensures var out := RolledPrices(rows, UniqueDates(rows), k);
            forall a, b :: 0 <= a < b < |out| ==> out[a].date < out[b].date
  {
    RolledShape(rows, k);
  }
}
