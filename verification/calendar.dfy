/** Calendar dates as the scraper writes them (`strftime('%Y-%m-%d')`) and as
    the cleaning step reads them back (`pd.to_datetime(..., errors='coerce')`),
    mapped to day numbers so that "one day earlier" is subtraction of one. */
module Calendar {
  import opened Wrappers
  import Text

  datatype Date = Date(year: int, month: int, day: int)

  predicate IsLeap(y: int) {
    y % 4 == 0 && (y % 100 != 0 || y % 400 == 0)
  }

  function DaysInMonth(y: int, m: int): (n: int)
    requires 1 <= m <= 12
    ensures 28 <= n <= 31
  {
    if m == 2 then (if IsLeap(y) then 29 else 28)
    else if m == 4 || m == 6 || m == 9 || m == 11 then 30
    else 31
  }

  predicate Valid(d: Date) {
    1 <= d.year && 1 <= d.month <= 12 && 1 <= d.day <= DaysInMonth(d.year, d.month)
  }

  function DaysInYear(y: int): int {
    if IsLeap(y) then 366 else 365
  }

  /** Days in the years before `y`, counted from year 1 (Python's proleptic
      Gregorian calendar). */
  function DaysBeforeYear(y: int): int
    requires y >= 1
  {
    var p := y - 1;
    365 * p + p / 4 - p / 100 + p / 400
  }

  /** Days in the months of year `y` before month `m`. */
  function DaysBeforeMonth(y: int, m: int): int
    requires 1 <= m <= 12
    decreases m
  {
    if m == 1 then 0 else DaysBeforeMonth(y, m - 1) + DaysInMonth(y, m - 1)
  }

  /** Python's `date.toordinal()`: 0001-01-01 is day 1. */
  function DayNumber(d: Date): int
    requires Valid(d)
  {
    DaysBeforeYear(d.year) + DaysBeforeMonth(d.year, d.month) + d.day
  }

  /** The following calendar day. */
  function Next(d: Date): (e: Date)
    requires Valid(d)
    ensures Valid(e)
  {
    if d.day < DaysInMonth(d.year, d.month) then Date(d.year, d.month, d.day + 1)
    else if d.month < 12 then Date(d.year, d.month + 1, 1)
    else Date(d.year + 1, 1, 1)
  }

  predicate Before(a: Date, b: Date) {
    a.year < b.year
    || (a.year == b.year && a.month < b.month)
    || (a.year == b.year && a.month == b.month && a.day < b.day)
  }

  lemma YearLength(y: int)
    requires y >= 1
    ensures DaysBeforeYear(y + 1) == DaysBeforeYear(y) + DaysInYear(y)
  {
    DivStep4(y);
    DivStep100(y);
    DivStep400(y);
  }

  lemma DivStep4(y: int)
    ensures y / 4 == (y - 1) / 4 + (if y % 4 == 0 then 1 else 0)
  {
  }

  lemma DivStep100(y: int)
    ensures y / 100 == (y - 1) / 100 + (if y % 100 == 0 then 1 else 0)
  {
  }

  lemma DivStep400(y: int)
    ensures y / 400 == (y - 1) / 400 + (if y % 400 == 0 then 1 else 0)
  {
  }

  lemma MonthsOfYear(y: int)
    ensures DaysBeforeMonth(y, 12) + DaysInMonth(y, 12) == DaysInYear(y)
  {
  }

  /** The next day is numbered one more: the backward walk of the rolling
      window visits every calendar day. */
  lemma NextIsOneMore(d: Date)
    requires Valid(d)
    ensures DayNumber(Next(d)) == DayNumber(d) + 1
  {
    if d.day == DaysInMonth(d.year, d.month) && d.month == 12 {
      YearLength(d.year);
      MonthsOfYear(d.year);
    }
  }

  lemma {:induction false} MonthsMonotone(y: int, m1: int, m2: int)
    requires 1 <= m1 < m2 <= 12
    ensures DaysBeforeMonth(y, m1) + DaysInMonth(y, m1) <= DaysBeforeMonth(y, m2)
    decreases m2
  {
    if m1 < m2 - 1 {
      MonthsMonotone(y, m1, m2 - 1);
    }
  }

  lemma {:induction false} YearsMonotone(y1: int, y2: int)
    requires 1 <= y1 < y2
    ensures DaysBeforeYear(y1) + DaysInYear(y1) <= DaysBeforeYear(y2)
    decreases y2
  {
    YearLength(y1);
    if y1 < y2 - 1 {
      YearsMonotone(y1, y2 - 1);
      YearLength(y2 - 1);
    }
  }

  lemma WithinYear(d: Date)
    requires Valid(d)
    ensures DaysBeforeYear(d.year) < DayNumber(d) <= DaysBeforeYear(d.year) + DaysInYear(d.year)
  {
    if d.month < 12 {
      MonthsMonotone(d.year, d.month, 12);
    }
    MonthsOfYear(d.year);
  }

  /** Day numbers follow calendar order, so distinct dates get distinct
      numbers and sorting by number sorts by date. */
  lemma OrderPreserved(a: Date, b: Date)
    requires Valid(a) && Valid(b)
    ensures Before(a, b) <==> DayNumber(a) < DayNumber(b)
    ensures a == b <==> DayNumber(a) == DayNumber(b)
  {
    if a.year < b.year {
      WithinYear(a);
      WithinYear(b);
      YearsMonotone(a.year, b.year);
    } else if b.year < a.year {
      WithinYear(a);
      WithinYear(b);
      YearsMonotone(b.year, a.year);
    } else if a.month < b.month {
      MonthsMonotone(a.year, a.month, b.month);
    } else if b.month < a.month {
      MonthsMonotone(a.year, b.month, a.month);
    }
  }

  // ---------------------------------------------------------------------
  // Text form

  /** The earliest and latest whole days a pandas `Timestamp` (nanoseconds
      since 1970 in 64 bits) can hold; other dates are coerced to null. */
  const EARLIEST := Date(1677, 9, 22)
  const LATEST := Date(2262, 4, 11)

  predicate InTimestampRange(d: Date) {
    !Before(d, EARLIEST) && !Before(LATEST, d)
  }

  function DigitChar(n: int): char
    requires 0 <= n <= 9
  {
    ('0' as int + n) as char
  }

  function DigitValue(c: char): int
    requires Text.IsDigit(c)
  {
    c as int - '0' as int
  }

  function Digits2(n: int): string
    requires 0 <= n <= 99
  {
    [DigitChar(n / 10), DigitChar(n % 10)]
  }

  function Digits4(n: int): string
    requires 0 <= n <= 9999
  {
    [DigitChar(n / 1000), DigitChar(n / 100 % 10), DigitChar(n / 10 % 10), DigitChar(n % 10)]
  }

  /** `strftime('%Y-%m-%d')` for four-digit years. */
  function FormatIso(d: Date): (s: string)
    requires Valid(d) && d.year <= 9999
    ensures |s| == 10
  {
    Digits4(d.year) + "-" + Digits2(d.month) + "-" + Digits2(d.day)
  }

  predicate IsoShape(s: string) {
    && |s| == 10
    && s[4] == '-' && s[7] == '-'
    && (forall i :: 0 <= i < 10 && i != 4 && i != 7 ==> Text.IsDigit(s[i]))
  }

  function FieldValue(s: string, lo: int, hi: int): (n: int)
    requires 0 <= lo <= hi <= |s|
    requires forall i :: lo <= i < hi ==> Text.IsDigit(s[i])
    ensures n >= 0
    decreases hi - lo
  {
    if lo == hi then 0
    else FieldValue(s, lo, hi - 1) * 10 + DigitValue(s[hi - 1])
  }

  /** `to_datetime` with `errors='coerce'` on one cell: a `YYYY-MM-DD` date
      that exists and fits a `Timestamp` gives its day number, anything else
      gives null. */
  function ParseIso(s: string): (r: Option<Date>)
    ensures r.Some? ==> Valid(r.value) && InTimestampRange(r.value)
  {
    if !IsoShape(s) then None
    else
      var d := Date(FieldValue(s, 0, 4), FieldValue(s, 5, 7), FieldValue(s, 8, 10));
      if Valid(d) && InTimestampRange(d) then Some(d) else None
  }

  function ParseDay(s: string): Option<int> {
    match ParseIso(s)
    case None => None
    case Some(d) => Some(DayNumber(d))
  }

  lemma DigitRoundTrip(k: int)
    requires 0 <= k <= 9
    ensures Text.IsDigit(DigitChar(k)) && DigitValue(DigitChar(k)) == k
  {
  }

  lemma Decimal(n: int)
    requires 0 <= n
    ensures n == n / 10 * 10 + n % 10
    ensures n / 10 / 10 == n / 100 && n / 100 / 10 == n / 1000
  {
  }

  lemma DigitsRead4(n: int)
    requires 0 <= n <= 9999
    ensures forall i :: 0 <= i < 4 ==> Text.IsDigit(Digits4(n)[i])
    ensures FieldValue(Digits4(n), 0, 4) == n
  {
    var s := Digits4(n);
    var a, b, c, e := n / 1000, n / 100 % 10, n / 10 % 10, n % 10;
    DigitRoundTrip(a);
    DigitRoundTrip(b);
    DigitRoundTrip(c);
    DigitRoundTrip(e);
    assert FieldValue(s, 0, 1) == a;
    assert FieldValue(s, 0, 2) == a * 10 + b;
    assert FieldValue(s, 0, 3) == (a * 10 + b) * 10 + c;
    assert FieldValue(s, 0, 4) == ((a * 10 + b) * 10 + c) * 10 + e;
    Decimal(n);
    Decimal(n / 10);
    Decimal(n / 100);
  }

  lemma DigitsRead2(n: int)
    requires 0 <= n <= 99
    ensures forall i :: 0 <= i < 2 ==> Text.IsDigit(Digits2(n)[i])
    ensures FieldValue(Digits2(n), 0, 2) == n
  {
    var s := Digits2(n);
    DigitRoundTrip(n / 10);
    DigitRoundTrip(n % 10);
    assert FieldValue(s, 0, 1) == n / 10;
  }

  /** A field's value depends only on its own characters. */
  lemma {:induction false} FieldValueShift(s: string, t: string, lo: int, hi: int, offset: int)
    requires 0 <= lo <= hi <= |s|
    requires 0 <= lo + offset && hi + offset <= |t|
    requires forall i :: lo <= i < hi ==> Text.IsDigit(s[i])
    requires forall i :: lo + offset <= i < hi + offset ==> t[i] == s[i - offset]
    ensures FieldValue(t, lo + offset, hi + offset) == FieldValue(s, lo, hi)
    decreases hi - lo
  {
    if lo < hi {
      FieldValueShift(s, t, lo, hi - 1, offset);
    }
  }

  lemma FormatIsoPieces(d: Date)
    requires Valid(d) && d.year <= 9999
    ensures var s := FormatIso(d);
            && s[..4] == Digits4(d.year) && s[4] == '-'
            && s[5..7] == Digits2(d.month) && s[7] == '-'
            && s[8..] == Digits2(d.day)
  {
  }

  lemma FormatIsoShape(d: Date)
    requires Valid(d) && d.year <= 9999
    ensures IsoShape(FormatIso(d))
  {
    var s := FormatIso(d);
    FormatIsoPieces(d);
    DigitsRead4(d.year);
    DigitsRead2(d.month);
    DigitsRead2(d.day);
    assert forall i :: 0 <= i < 4 ==> s[i] == s[..4][i];
    assert forall i :: 5 <= i < 7 ==> s[i] == s[5..7][i - 5];
    assert forall i :: 8 <= i < 10 ==> s[i] == s[8..][i - 8];
  }

  lemma FormatIsoFields(d: Date)
    requires Valid(d) && d.year <= 9999
    ensures IsoShape(FormatIso(d))
    ensures FieldValue(FormatIso(d), 0, 4) == d.year
    ensures FieldValue(FormatIso(d), 5, 7) == d.month
    ensures FieldValue(FormatIso(d), 8, 10) == d.day
  {
    var s := FormatIso(d);
    FormatIsoShape(d);
    FormatIsoPieces(d);
    DigitsRead4(d.year);
    DigitsRead2(d.month);
    DigitsRead2(d.day);
    FieldValueShift(Digits4(d.year), s, 0, 4, 0);
    FieldValueShift(Digits2(d.month), s, 0, 2, 5);
    FieldValueShift(Digits2(d.day), s, 0, 2, 8);
  }

  /** Every representable date survives a write-then-read. */
  lemma FormatThenParse(d: Date)
    requires Valid(d) && InTimestampRange(d)
    ensures ParseIso(FormatIso(d)) == Some(d)
  {
    FormatIsoFields(d);
  }

  lemma DigitOfValue(c: char)
    requires Text.IsDigit(c)
    ensures DigitChar(DigitValue(c)) == c
  {
  }

  lemma DivMod10(q: int, r: int)
    requires q >= 0 && 0 <= r < 10
    ensures (q * 10 + r) / 10 == q && (q * 10 + r) % 10 == r
  {
  }

  lemma Field2Digits(s: string, lo: int)
    requires 0 <= lo && lo + 2 <= |s|
    requires Text.IsDigit(s[lo]) && Text.IsDigit(s[lo + 1])
    ensures FieldValue(s, lo, lo + 2) <= 99
    ensures Digits2(FieldValue(s, lo, lo + 2)) == s[lo..lo + 2]
  {
    var a, b := DigitValue(s[lo]), DigitValue(s[lo + 1]);
    assert FieldValue(s, lo, lo + 1) == a;
    assert FieldValue(s, lo, lo + 2) == a * 10 + b;
    DivMod10(a, b);
    DigitOfValue(s[lo]);
    DigitOfValue(s[lo + 1]);
  }

  lemma Field4Digits(s: string)
    requires 4 <= |s|
    requires forall i :: 0 <= i < 4 ==> Text.IsDigit(s[i])
    ensures FieldValue(s, 0, 4) <= 9999
    ensures Digits4(FieldValue(s, 0, 4)) == s[..4]
  {
    var a, b, c, e := DigitValue(s[0]), DigitValue(s[1]), DigitValue(s[2]), DigitValue(s[3]);
    var v := FieldValue(s, 0, 4);
    assert FieldValue(s, 0, 1) == a;
    assert FieldValue(s, 0, 2) == a * 10 + b;
    assert FieldValue(s, 0, 3) == (a * 10 + b) * 10 + c;
    assert v == ((a * 10 + b) * 10 + c) * 10 + e;
    SplitDecimal4(a, b, c, e);
    DigitOfValue(s[0]);
    DigitOfValue(s[1]);
    DigitOfValue(s[2]);
    DigitOfValue(s[3]);
  }

  /** Four decimal digits read back from the number they spell. */
  lemma SplitDecimal4(a: int, b: int, c: int, e: int)
    requires 0 <= a <= 9 && 0 <= b <= 9 && 0 <= c <= 9 && 0 <= e <= 9
    ensures var v := ((a * 10 + b) * 10 + c) * 10 + e;
      && v <= 9999 && v / 1000 == a && v / 100 % 10 == b && v / 10 % 10 == c && v % 10 == e
  {
    var ab := a * 10 + b;
    var abc := ab * 10 + c;
    var v := abc * 10 + e;
    DivMod10(abc, e);
    DivMod10(ab, c);
    DivMod10(a, b);
    Decimal(v);
  }

  /** A cell that parses has exactly one spelling: the written form of its
      date. */
  lemma ParseThenFormat(s: string)
    requires ParseIso(s).Some?
    ensures FormatIso(ParseIso(s).value) == s
  {
    var d := ParseIso(s).value;
    assert IsoShape(s);
    Field4Digits(s);
    Field2Digits(s, 5);
    Field2Digits(s, 8);
    assert s == s[..4] + "-" + s[5..7] + "-" + s[8..10];
  }
}
