/** `load_and_combine_csv` (dataclean.py, lines 4-20): the files of a data
    directory picked by name prefix, each read as pandas reads a CSV file,
    the price text turned into a number and the date into a day number, and
    all rows concatenated. The directory is a sequence of files in listing
    order, each already split into rows of fields. */
module Loader {
  import opened Wrappers
  import opened Text
  import Price
  import Calendar
  import Csv
  import Listing

  datatype CsvFile = CsvFile(name: string, rows: seq<seq<string>>)

  /** The value a series maps to. A plain string is what the plotting and
      table scripts pass; the loop walks it character by character. */
  datatype PrefixSpec = Single(text: string) | Many(prefixes: seq<string>)

  datatype LoadError =
    | NoHeader(file: string)
    | RaggedRow(file: string)
    | MissingColumn(column: string)
      /** Two columns carry the name after the renaming: selecting it gives a
          frame, which has no string methods and cannot be assembled into
          dates. */
    | DuplicateColumn(column: string)
    | BadPrice(text: string)

  /** One row of the combined table as the analysis uses it: the date as a
      day number (`None` for NaT), the model (`None` for a missing value) and
      the price (`None` for NaN). */
  datatype Row = Row(date: Option<int>, model: Option<string>, price: Option<real>)

  // ---------------------------------------------------------------------
  // File selection

  /** `for prefix in prefixes`: a list gives its elements, a string gives its
      characters as one-letter strings. */
  function Prefixes(spec: PrefixSpec): (ps: seq<string>)
    ensures spec.Single? ==> |ps| == |spec.text| && forall i :: 0 <= i < |ps| ==> ps[i] == [spec.text[i]]
    ensures spec.Many? ==> ps == spec.prefixes
  {
    match spec
    case Single(t) => seq(|t|, i requires 0 <= i < |t| => [t[i]])
    case Many(ps) => ps
  }

  predicate MatchesFile(name: string, prefix: string) {
    StartsWith(name, prefix) && EndsWith(name, ".csv")
  }

  /** The files of the directory matching one prefix, in listing order. */
  function FilesFor(dir: seq<CsvFile>, prefix: string): (r: seq<CsvFile>)
    ensures forall f :: f in r ==> f in dir && MatchesFile(f.name, prefix)
    decreases |dir|
  {
    if |dir| == 0 then []
    else if MatchesFile(dir[0].name, prefix) then [dir[0]] + FilesFor(dir[1..], prefix)
    else FilesFor(dir[1..], prefix)
  }

  /** Prefix order outside, listing order inside: a file is read once for
      every prefix it matches. */
  function Selected(dir: seq<CsvFile>, prefixes: seq<string>): (r: seq<CsvFile>)
    ensures forall f :: f in r ==> f in dir && exists p :: p in prefixes && MatchesFile(f.name, p)
    decreases |prefixes|
  {
    if |prefixes| == 0 then []
    else FilesFor(dir, prefixes[0]) + Selected(dir, prefixes[1..])
  }

  /** How many of the prefixes a file name matches. */
  function PrefixCount(prefixes: seq<string>, name: string): nat
    decreases |prefixes|
  {
    if |prefixes| == 0 then 0
    else (if MatchesFile(name, prefixes[0]) then 1 else 0) + PrefixCount(prefixes[1..], name)
  }

  lemma {:induction false} FilesForCount(dir: seq<CsvFile>, prefix: string, f: CsvFile)
    ensures multiset(FilesFor(dir, prefix))[f] == if MatchesFile(f.name, prefix) then multiset(dir)[f] else 0
    decreases |dir|
  {
    if |dir| > 0 {
      FilesForCount(dir[1..], prefix, f);
      assert dir == [dir[0]] + dir[1..];
    }
  }

  lemma Distribute(n: int, m: int)
    ensures (n + 1) * m == n * m + m
  {
  }

  /** A file is read as many times as it appears in the listing times the
      number of prefixes its name matches. */
  lemma {:induction false} SelectedCount(dir: seq<CsvFile>, prefixes: seq<string>, f: CsvFile)
    ensures multiset(Selected(dir, prefixes))[f] == PrefixCount(prefixes, f.name) * multiset(dir)[f]
    decreases |prefixes|
  {
    if |prefixes| > 0 {
      FilesForCount(dir, prefixes[0], f);
      SelectedCount(dir, prefixes[1..], f);
      var m := multiset(dir)[f];
      var n := PrefixCount(prefixes[1..], f.name);
      assert multiset(Selected(dir, prefixes))[f]
          == multiset(FilesFor(dir, prefixes[0]))[f] + multiset(Selected(dir, prefixes[1..]))[f];
      if MatchesFile(f.name, prefixes[0]) {
        assert PrefixCount(prefixes, f.name) == n + 1;
        Distribute(n, m);
      } else {
        assert PrefixCount(prefixes, f.name) == n;
      }
    }
  }

  lemma {:induction false} SingleCount(t: string, name: string)
    requires |name| > 0 && EndsWith(name, ".csv")
    ensures PrefixCount(Prefixes(Single(t)), name) == multiset(t)[name[0]]
    decreases |t|
  {
    if |t| > 0 {
      assert Prefixes(Single(t))[1..] == Prefixes(Single(t[1..]));
      SingleCount(t[1..], name);
      assert t == [t[0]] + t[1..];
    }
  }

  /** With a plain string as the prefix value, a `.csv` file is read once for
      every occurrence of its first letter in that string, whatever the rest
      of its name says. */
  lemma BareStringCountsFirstLetter(dir: seq<CsvFile>, t: string, f: CsvFile)
    requires |f.name| > 0 && EndsWith(f.name, ".csv")
    ensures multiset(Selected(dir, Prefixes(Single(t))))[f] == multiset(t)[f.name[0]] * multiset(dir)[f]
  {
    SelectedCount(dir, Prefixes(Single(t)), f);
    SingleCount(t, f.name);
  }

  /** The prefix string `iphone_8_2024-` reads an iPhone 12 file once. */
  lemma BareStringTakesOtherModel(f: CsvFile)
    requires StartsWith(f.name, "iphone_12_") && EndsWith(f.name, ".csv")
    ensures multiset(Selected([f], Prefixes(Single("iphone_8_2024-"))))[f] == 1
  {
    FirstOfPrefix(f.name, "iphone_12_");
    FirstLetterI(f);
  }

  lemma FirstLetterI(f: CsvFile)
    requires |f.name| > 0 && f.name[0] == 'i' && EndsWith(f.name, ".csv")
    ensures multiset(Selected([f], Prefixes(Single("iphone_8_2024-"))))[f] == 1
  {
    CountOfI();
    ListedOnce(f, "iphone_8_2024-", 1);
  }

  lemma ListedOnce(f: CsvFile, t: string, k: nat)
    requires |f.name| > 0 && EndsWith(f.name, ".csv")
    requires multiset(t)[f.name[0]] == k
    ensures multiset(Selected([f], Prefixes(Single(t))))[f] == k
  {
    BareStringCountsFirstLetter([f], t, f);
    assert multiset([f])[f] == 1;
    TimesOne(k);
  }

  lemma TimesOne(n: int)
    ensures n * 1 == n
  {
  }

  /** The prefix string `iphone_8_2024-` reads a file whose name starts with
      `2` twice. */
  lemma BareStringTakesTwice(f: CsvFile)
    requires |f.name| > 0 && f.name[0] == '2' && EndsWith(f.name, ".csv")
    ensures multiset(Selected([f], Prefixes(Single("iphone_8_2024-"))))[f] == 2
  {
    CountOfTwo();
    ListedOnce(f, "iphone_8_2024-", 2);
  }

  lemma FirstOfPrefix(s: string, prefix: string)
    requires StartsWith(s, prefix) && |prefix| > 0
    ensures s[0] == prefix[0]
  {
    assert s[..|prefix|][0] == s[0];
  }

  lemma CountOfTwo()
    ensures multiset("iphone_8_2024-")['2'] == 2
  {
    PrefixHalves();
  }

  lemma CountOfI()
    ensures multiset("iphone_8_2024-")['i'] == 1
  {
    PrefixHalves();
  }

  lemma PrefixHalves()
    ensures multiset("iphone_8_2024-") == multiset("iphone_8_") + multiset("2024-")
    ensures multiset("iphone_8_")['2'] == 0 && multiset("2024-")['2'] == 2
    ensures multiset("iphone_8_")['i'] == 1 && multiset("2024-")['i'] == 0
  {
    PrefixJoin();
    FrontCounts();
    BackCounts();
  }

  lemma PrefixJoin()
    ensures multiset("iphone_8_2024-") == multiset("iphone_8_") + multiset("2024-")
  {
    assert "iphone_8_2024-" == "iphone_8_" + "2024-";
  }

  lemma FrontCounts()
    ensures multiset("iphone_8_")['2'] == 0 && multiset("iphone_8_")['i'] == 1
  {
    FrontJoin();
    FrontPieces();
  }

  lemma FrontJoin()
    ensures multiset("iphone_8_") == multiset("iphon") + multiset("e_8_")
  {
    assert "iphone_8_" == "iphon" + "e_8_";
  }

  lemma FrontPieces()
    ensures multiset("iphon")['2'] == 0 && multiset("iphon")['i'] == 1
    ensures multiset("e_8_")['2'] == 0 && multiset("e_8_")['i'] == 0
  {
  }

  lemma BackCounts()
    ensures multiset("2024-")['2'] == 2 && multiset("2024-")['i'] == 0
  {
  }

  // ---------------------------------------------------------------------
  // Cells

  /** The strings `read_csv` turns into a missing value by default. */
  const NA_STRINGS: set<string> := {
    "", "#N/A", "#N/A N/A", "#NA", "-1.#IND", "-1.#QNAN", "-NaN", "-nan",
    "1.#IND", "1.#QNAN", "<NA>", "N/A", "NA", "NULL", "NaN", "None", "n/a",
    "nan", "null"
  }

  /** A cell of a data row: fields past the end of a short row are missing. */
  function Cell(row: seq<string>, column: nat): (r: Option<string>)
    ensures r.Some? <==> column < |row| && row[column] !in NA_STRINGS
    ensures r.Some? ==> r.value == row[column]
  {
    if column < |row| && row[column] !in NA_STRINGS then Some(row[column]) else None
  }

  /** The first position of a name in the header. */
  function IndexOf(header: seq<string>, name: string): (r: Option<nat>)
    ensures r.Some? ==> r.value < |header| && header[r.value] == name
                        && forall j :: 0 <= j < r.value ==> header[j] != name
    ensures r.None? <==> name !in header
    decreases |header|
  {
    if |header| == 0 then None
    else if header[0] == name then Some(0)
    else match IndexOf(header[1..], name)
      case None => None
      case Some(k) => Some(k + 1)
  }

  // ---------------------------------------------------------------------
  // Numbers

  /** What Python's `float()` makes of a text it accepts. */
  datatype FloatValue = Number(value: real) | NotANumber

  /** The first position of a character, or the length when it is absent. */
  function FirstIndex(s: string, c: char): (k: nat)
    ensures k <= |s|
    ensures forall i :: 0 <= i < k ==> s[i] != c
    ensures k < |s| ==> s[k] == c
    decreases |s|
  {
    if |s| == 0 || s[0] == c then 0 else FirstIndex(s[1..], c) + 1
  }

  function Pow10(n: nat): (r: nat)
    ensures r >= 1
  {
    if n == 0 then 1 else 10 * Pow10(n - 1)
  }

  /** The value of a run of decimal digits. */
  function DigitsValue(s: string): nat
    requires AllDigits(s)
  {
    Calendar.FieldValue(s, 0, |s|)
  }

  /** Digits with at most one decimal point and at least one digit. */
  function UnsignedDecimal(s: string): (r: Option<real>)
    ensures r.Some? ==> r.value >= 0.0
  {
    var k := FirstIndex(s, '.');
    var whole := s[..k];
    var fraction := if k < |s| then s[k + 1..] else "";
    if AllDigits(whole) && AllDigits(fraction) && |whole| + |fraction| >= 1 then
      Some(DigitsValue(whole) as real + DigitsValue(fraction) as real / Pow10(|fraction|) as real)
    else None
  }

  /** Python's `float()` on a text without surrounding whitespace: an
      optional sign, then `nan` in any case or a plain decimal number. */
  function ParseNumber(t: string): (r: Option<FloatValue>)
    ensures r.Some? ==> |t| > 0
  {
    var negative := |t| > 0 && t[0] == '-';
    var body := if |t| > 0 && (t[0] == '-' || t[0] == '+') then t[1..] else t;
    if Lower(body) == "nan" then Some(NotANumber)
    else match UnsignedDecimal(body)
      case None => None
      case Some(v) => Some(Number(if negative then -v else v))
  }

  /** Python's `float()` on a text: surrounding whitespace is ignored. */
  function ParseFloat(s: string): (r: Option<FloatValue>)
    ensures r.Some? ==> |Strip(s)| > 0
  {
    ParseNumber(Strip(s))
  }

  /** Line 13 on one cell: a missing cell stays NaN; otherwise every euro
      sign is removed, every comma becomes a point and the text must parse. */
  function ParsePrice(cell: Option<string>): (r: Result<Option<real>, LoadError>)
    ensures cell.None? ==> r == Success(None)
    ensures r.Failure? ==> cell.Some? && r.error == BadPrice(cell.value)
  {
    match cell
    case None => Success(None)
    case Some(t) =>
      match ParseFloat(ReplaceChar(RemoveChar(t, Price.EURO), ',', '.'))
      case None => Failure(BadPrice(t))
      case Some(NotANumber) => Success(None)
      case Some(Number(v)) => Success(Some(v))
  }

  /** Line 14 on one cell: a missing cell or a text that is not a date
      becomes NaT. */
  function ParseDate(cell: Option<string>): Option<int> {
    match cell
    case None => None
    case Some(t) => Calendar.ParseDay(t)
  }

  // ---------------------------------------------------------------------
  // Reading one file

  /** `read_csv` skips empty lines everywhere, the header included. */
  function NonBlank(rows: seq<seq<string>>): (r: seq<seq<string>>)
    ensures forall i :: 0 <= i < |r| ==> r[i] != [""] && r[i] in rows
    ensures |r| <= |rows|
    decreases |rows|
  {
    if |rows| == 0 then []
    else if rows[0] == [""] then NonBlank(rows[1..])
    else [rows[0]] + NonBlank(rows[1..])
  }

  /** The price column of the data rows, converted; the first text that does
      not parse raises. */
  function ParsePrices(body: seq<seq<string>>, column: nat): (r: Result<seq<Option<real>>, LoadError>)
    ensures r.Success? ==> |r.value| == |body|
    ensures r.Success? ==> forall i :: 0 <= i < |body| ==> ParsePrice(Cell(body[i], column)) == Success(r.value[i])
    ensures r.Failure? <==> exists i :: 0 <= i < |body| && ParsePrice(Cell(body[i], column)).Failure?
  {
    Collect(seq(|body|, i requires 0 <= i < |body| => ParsePrice(Cell(body[i], column))))
  }

  predicate Ragged(header: seq<string>, body: seq<seq<string>>) {
    exists i :: 0 <= i < |body| && |body[i]| > |header|
  }

  /** Where a column stands once line 11 has renamed the file's columns. */
  datatype Column = Absent | At(index: nat) | Doubled

  /** The column called `renamed` after line 11 renames `original` to it:
      the file's own column of that name, or the renamed one; a file with
      both ends up with two columns of that name. */
  function RenamedColumn(header: seq<string>, original: string, renamed: string): (c: Column)
    ensures c.Absent? <==> original !in header && renamed !in header
    ensures c.Doubled? <==> original in header && renamed in header
    ensures c.At? ==> c.index < |header| && (header[c.index] == original || header[c.index] == renamed)
  {
    match (IndexOf(header, original), IndexOf(header, renamed))
    case (None, None) => Absent
    case (Some(i), None) => At(i)
    case (None, Some(i)) => At(i)
    case (Some(_), Some(_)) => Doubled
  }

  /** The `listing_price` column after the renaming. */
  function PriceColumn(header: seq<string>): Column {
    RenamedColumn(header, "Price", "listing_price")
  }

  /** The `date` column after the renaming. */
  function DateColumn(header: seq<string>): Column {
    RenamedColumn(header, "Date", "date")
  }

  /** `pd.read_csv`, the renaming of line 11, and lines 13-14. Reading fails
      on a file without any line and on a data row longer than the header;
      then a missing or doubled price column, an unparseable price and a
      missing or doubled date column raise, in that order. A missing `Model`
      column leaves this file's models missing, as `concat` fills them when
      another file has the column. */
  function ReadFile(f: CsvFile): (r: Result<seq<Row>, LoadError>)
    ensures r.Success? ==> |NonBlank(f.rows)| >= 1 && |r.value| == |NonBlank(f.rows)| - 1
  {
    var lines := NonBlank(f.rows);
    if |lines| == 0 then Failure(NoHeader(f.name))
    else
      var header := lines[0];
      var body := lines[1..];
      if Ragged(header, body) then Failure(RaggedRow(f.name))
      else match PriceColumn(header)
        case Absent => Failure(MissingColumn("listing_price"))
        case Doubled => Failure(DuplicateColumn("listing_price"))
        case At(pc) =>
          match ParsePrices(body, pc)
          case Failure(e) => Failure(e)
          case Success(prices) =>
            match DateColumn(header)
            case Absent => Failure(MissingColumn("date"))
            case Doubled => Failure(DuplicateColumn("date"))
            case At(dc) =>
              var mc := IndexOf(header, "Model");
              Success(seq(|body|, i requires 0 <= i < |body| =>
                Row(ParseDate(Cell(body[i], dc)),
                    if mc.Some? then Cell(body[i], mc.value) else None,
                    prices[i])))
  }

  /** A file reads without error exactly when it has a header line, no data
      row is longer than the header, the header names exactly one of `Price`
      and `listing_price` and exactly one of `Date` and `date`, and every
      price cell is missing or parses. */
  lemma ReadFileIff(f: CsvFile)
    ensures ReadFile(f).Success? <==>
              var lines := NonBlank(f.rows);
              && |lines| >= 1
              && !Ragged(lines[0], lines[1..])
              && ("Price" in lines[0] <==> "listing_price" !in lines[0])
              && ("Date" in lines[0] <==> "date" !in lines[0])
              && forall i :: 1 <= i < |lines| ==>
                   ParsePrice(Cell(lines[i], PriceColumn(lines[0]).index)).Success?
  {
    hide *;
    ReadFileSucceeds(f);
    var lines := NonBlank(f.rows);
    if |lines| >= 1 {
      ColumnsFound(lines[0]);
    }
    if |lines| >= 1 && PriceColumn(lines[0]).At? {
      var body := lines[1..];
      var pc := PriceColumn(lines[0]).index;
      assert forall i :: 1 <= i < |lines| ==> lines[i] == body[i - 1];
      if exists i :: 1 <= i < |lines| && ParsePrice(Cell(lines[i], pc)).Failure? {
        var i :| 1 <= i < |lines| && ParsePrice(Cell(lines[i], pc)).Failure?;
        assert ParsePrice(Cell(body[i - 1], pc)).Failure?;
      }
    }
  }

  lemma ColumnsFound(header: seq<string>)
    ensures PriceColumn(header).At? <==> ("Price" in header <==> "listing_price" !in header)
    ensures DateColumn(header).At? <==> ("Date" in header <==> "date" !in header)
  {
  }

  /** The checks `ReadFile` makes, in order, before it builds the rows. */
  lemma ReadFileSucceeds(f: CsvFile)
    ensures ReadFile(f).Success? <==>
              var lines := NonBlank(f.rows);
              && |lines| >= 1
              && !Ragged(lines[0], lines[1..])
              && PriceColumn(lines[0]).At?
              && ParsePrices(lines[1..], PriceColumn(lines[0]).index).Success?
              && DateColumn(lines[0]).At?
  {
  }

  /** A file whose header already uses the renamed names reads like one
      that uses the original names. */
  lemma RenamedHeaderReads()
    ensures PriceColumn(["date", "Model", "listing_price"]) == At(2)
    ensures DateColumn(["date", "Model", "listing_price"]) == At(0)
    ensures PriceColumn(["Date", "Price", "listing_price"]) == Doubled
  {
  }

  // ---------------------------------------------------------------------
  // All files

  /** The selected files read in order and concatenated; the first file
      that raises ends the load. */
  function LoadFiles(files: seq<CsvFile>): (r: Result<seq<Row>, LoadError>)
    ensures r.Success? <==> forall i :: 0 <= i < |files| ==> ReadFile(files[i]).Success?
    ensures r.Failure? ==> exists i :: 0 <= i < |files| && ReadFile(files[i]) == Failure(r.error)
                                       && forall j :: 0 <= j < i ==> ReadFile(files[j]).Success?
    decreases |files|
  {
    hide *;
    if |files| == 0 then Success([])
    else
      match ReadFile(files[0])
      case Failure(e) => Failure(e)
      case Success(rows) =>
        var rest := LoadFiles(files[1..]);
        AllReadShift(files);
        match rest
        case Failure(e) =>
          FirstFailureShift(files, e);
          Failure(e)
        case Success(more) => Success(rows + more)
  }

  lemma AllReadShift(files: seq<CsvFile>)
    requires |files| > 0
    ensures (forall i :: 0 <= i < |files| ==> ReadFile(files[i]).Success?) <==>
            ReadFile(files[0]).Success? && forall i :: 0 <= i < |files[1..]| ==> ReadFile(files[1..][i]).Success?
  {
    hide ReadFile;
    assert forall i :: 0 < i < |files| ==> files[i] == files[1..][i - 1];
  }

  lemma FirstFailureShift(files: seq<CsvFile>, e: LoadError)
    requires |files| > 0 && ReadFile(files[0]).Success?
    requires exists i :: 0 <= i < |files[1..]| && ReadFile(files[1..][i]) == Failure(e)
                         && forall j :: 0 <= j < i ==> ReadFile(files[1..][j]).Success?
    ensures exists i :: 0 <= i < |files| && ReadFile(files[i]) == Failure(e)
                        && forall j :: 0 <= j < i ==> ReadFile(files[j]).Success?
  {
    hide ReadFile;
    var i :| 0 <= i < |files[1..]| && ReadFile(files[1..][i]) == Failure(e)
             && forall j :: 0 <= j < i ==> ReadFile(files[1..][j]).Success?;
    assert ReadFile(files[i + 1]) == Failure(e);
    assert forall j :: 0 < j < i + 1 ==> files[j] == files[1..][j - 1];
  }

  /** The number of data rows of the files. */
  function RowCount(files: seq<CsvFile>): nat
    decreases |files|
  {
    if |files| == 0 then 0
    else (if |NonBlank(files[0].rows)| > 0 then |NonBlank(files[0].rows)| - 1 else 0) + RowCount(files[1..])
  }

  /** A successful load has one row per data line of every selected file. */
  lemma {:induction false} LoadFilesCount(files: seq<CsvFile>)
    requires LoadFiles(files).Success?
    ensures |LoadFiles(files).value| == RowCount(files)
    decreases |files|
  {
    if |files| > 0 {
      LoadFilesCount(files[1..]);
    }
  }

  /** `load_and_combine_csv(directory, prefixes)`. With no matching file the
      result is the empty table. */
  function LoadAndCombine(dir: seq<CsvFile>, spec: PrefixSpec): (r: Result<seq<Row>, LoadError>)
    ensures Selected(dir, Prefixes(spec)) == [] ==> r == Success([])
  {
    LoadFiles(Selected(dir, Prefixes(spec)))
  }

  /** The file's header line names a `Model` column. */
  predicate NamesModel(f: CsvFile) {
    |NonBlank(f.rows)| >= 1 && "Model" in NonBlank(f.rows)[0]
  }

  /** Whether the table `load_and_combine_csv` builds has a `Model` column:
      `concat` keeps the columns of every frame, so the table has one exactly
      when some selected file names it. */
  function HasModelColumn(dir: seq<CsvFile>, spec: PrefixSpec): (b: bool)
    ensures b <==> exists f :: f in Selected(dir, Prefixes(spec)) && NamesModel(f)
  {
    var files := Selected(dir, Prefixes(spec));
    exists i :: 0 <= i < |files| && NamesModel(files[i])
  }

  /** No selected file exactly when no file of the directory ends in `.csv`
      and starts with one of the prefixes. */
  lemma {:induction false} NothingSelectedIff(dir: seq<CsvFile>, prefixes: seq<string>)
    ensures Selected(dir, prefixes) == [] <==>
              forall f, p :: f in dir && p in prefixes ==> !MatchesFile(f.name, p)
    decreases |prefixes|
  {
    if |prefixes| > 0 {
      NothingSelectedIff(dir, prefixes[1..]);
      forall f | f in dir
        ensures MatchesFile(f.name, prefixes[0]) ==> FilesFor(dir, prefixes[0]) != []
      {
        FilesForCount(dir, prefixes[0], f);
      }
      if FilesFor(dir, prefixes[0]) != [] {
        var f := FilesFor(dir, prefixes[0])[0];
        assert f in FilesFor(dir, prefixes[0]);
      }
      assert forall p :: p in prefixes <==> p == prefixes[0] || p in prefixes[1..];
    }
  }

  // ---------------------------------------------------------------------
  // Reading what the scraper wrote

  /** The number a valid price text denotes: units and two decimals. */
  function Amount(units: string, cents: string): real
    requires AllDigits(units) && AllDigits(cents)
  {
    DigitsValue(units) as real + DigitsValue(cents) as real / 100.0
  }

  lemma TrimDecimal(spaces: string, number: string, tail: string)
    requires AllSpace(spaces) && AllSpace(tail) && |tail| <= 1
    requires |number| > 0 && !IsSpace(number[0]) && !IsSpace(number[|number| - 1])
    ensures Strip(spaces + number + tail) == number
  {
    var s := spaces + number + tail;
    Price.LeadingSpacesOfParts(spaces, number + tail);
    assert s == spaces + (number + tail);
    var u := number + tail;
    assert TrimLeft(s) == u;
    if |tail| == 1 {
      assert u[..|u| - 1] == number;
      assert TrailingSpaces(u) == 1;
    } else {
      assert u == number;
    }
  }

  lemma UnsignedOfParts(units: string, cents: string)
    requires |units| >= 1 && AllDigits(units) && |cents| == 2 && AllDigits(cents)
    ensures UnsignedDecimal(units + "." + cents) == Some(Amount(units, cents))
  {
    var s := units + "." + cents;
    var k := FirstIndex(s, '.');
    assert s[|units|] == '.';
    assert forall i :: 0 <= i < |units| ==> s[i] != '.' by {
      forall i | 0 <= i < |units| ensures s[i] != '.' {
        assert s[i] == units[i];
      }
    }
    assert k == |units|;
    assert s[..k] == units;
    assert s[k + 1..] == cents;
    assert Pow10(|cents|) == 100 by {
      assert Pow10(0) == 1;
      assert Pow10(1) == 10;
    }
    var c := DigitsValue(cents) as real;
    assert c / Pow10(|cents|) as real == c / 100.0;
    assert UnsignedDecimal(s) == Some(DigitsValue(units) as real + c / 100.0);
  }

  lemma EuroRemoved(spaces: string, units: string, cents: string, newline: bool)
    requires Price.WellFormedParts(spaces, units, cents)
    ensures RemoveChar(Price.Compose(spaces, units, cents, newline), Price.EURO)
            == spaces + units + [','] + cents + (if newline then "\n" else "")
  {
    var rest := spaces + units + [','] + cents + (if newline then "\n" else "");
    assert Price.Compose(spaces, units, cents, newline) == [Price.EURO] + rest;
    assert Price.EURO !in spaces;
    RemoveCharAbsent(rest, Price.EURO);
  }

  lemma CommaReplaced(spaces: string, units: string, cents: string, tail: string)
    requires ',' !in spaces && ',' !in units && ',' !in cents && ',' !in tail
    ensures ReplaceChar(spaces + units + [','] + cents + tail, ',', '.') == spaces + (units + "." + cents) + tail
  {
    ReplaceCharAppend(spaces + units + [','] + cents, tail, ',', '.');
    ReplaceCharAppend(spaces + units + [','], cents, ',', '.');
    ReplaceCharAppend(spaces + units, [','], ',', '.');
    ReplaceCharAppend(spaces, units, ',', '.');
    ReplaceCharAbsent(spaces, ',', '.');
    ReplaceCharAbsent(units, ',', '.');
    ReplaceCharAbsent(cents, ',', '.');
    ReplaceCharAbsent(tail, ',', '.');
  }

  lemma FloatOfNumber(spaces: string, units: string, cents: string, tail: string)
    requires AllSpace(spaces) && AllSpace(tail) && |tail| <= 1
    requires |units| >= 1 && AllDigits(units) && |cents| == 2 && AllDigits(cents)
    ensures ParseFloat(spaces + (units + "." + cents) + tail) == Some(Number(Amount(units, cents)))
  {
    var number := units + "." + cents;
    assert number[0] == units[0] && number[|number| - 1] == cents[1];
    TrimDecimal(spaces, number, tail);
    UnsignedOfParts(units, cents);
    FloatOfUnsigned(number, Amount(units, cents));
  }

  /** A text that starts with a digit, is not three characters long and
      reads as a decimal parses as that number. */
  lemma FloatOfUnsigned(number: string, v: real)
    requires |number| > 0 && IsDigit(number[0]) && |number| != 3
    requires UnsignedDecimal(number) == Some(v)
    ensures ParseNumber(number) == Some(Number(v))
  {
    assert number[0] != '-' && number[0] != '+';
    assert Lower(number) != "nan" by {
      assert |Lower(number)| != |"nan"|;
    }
  }

  /** Line 13 turns every text the price pattern accepts into its value:
      `€ 199,00` becomes 199. */
  lemma ValidPriceReadsAsAmount(spaces: string, units: string, cents: string, newline: bool)
    requires Price.WellFormedParts(spaces, units, cents)
    ensures ParsePrice(Some(Price.Compose(spaces, units, cents, newline))) == Success(Some(Amount(units, cents)))
  {
    var tail := if newline then "\n" else "";
    EuroRemoved(spaces, units, cents, newline);
    CommaReplaced(spaces, units, cents, tail);
    FloatOfNumber(spaces, units, cents, tail);
  }

  /** Every price text the scraper accepts loads as a number that is not
      negative, so a file of scraped listings never fails on its prices. */
  lemma ValidPriceLoads(s: string)
    requires Price.IsValidPrice(s)
    ensures ParsePrice(Some(s)).Success?
    ensures ParsePrice(Some(s)).value.Some? && ParsePrice(Some(s)).value.value >= 0.0
  {
    Price.ValidPriceIff(s);
    var spaces, units, cents, newline :|
      Price.WellFormedParts(spaces, units, cents) && s == Price.Compose(spaces, units, cents, newline);
    ValidPriceReadsAsAmount(spaces, units, cents, newline);
  }

  lemma {:induction false} NonBlankKeeps(rows: seq<seq<string>>)
    requires forall i :: 0 <= i < |rows| ==> |rows[i]| != 1
    ensures NonBlank(rows) == rows
    decreases |rows|
  {
    if |rows| > 0 {
      NonBlankKeeps(rows[1..]);
      assert rows == [rows[0]] + rows[1..];
    }
  }

  lemma ValidPriceIsNotMissing(s: string)
    requires Price.IsValidPrice(s)
    ensures s !in NA_STRINGS
  {
    assert s[0] == Price.EURO;
  }

  lemma NamesAreNotMissing(m: Listing.ModelType, date: string)
    requires |date| == 10
    ensures m.Name() !in NA_STRINGS && date !in NA_STRINGS
  {
  }

  /** The price column of a scraped file converts without error. */
  lemma {:induction false} ScrapedPricesParse(date: string, records: seq<Listing.Record>)
    requires forall i :: 0 <= i < |records| ==> Price.IsValidPrice(records[i].price)
    ensures ParsePrices(Csv.Rows(date, records), 3).Success?
    ensures forall i :: 0 <= i < |records| ==>
              ParsePrices(Csv.Rows(date, records), 3).value[i].Some? &&
              ParsePrices(Csv.Rows(date, records), 3).value[i].value >= 0.0
  {
    var rows := Csv.Rows(date, records);
    forall i | 0 <= i < |rows|
      ensures ParsePrice(Cell(rows[i], 3)).Success?
      ensures ParsePrice(Cell(rows[i], 3)).value.Some? && ParsePrice(Cell(rows[i], 3)).value.value >= 0.0
    {
      ValidPriceIsNotMissing(records[i].price);
      assert Cell(rows[i], 3) == Some(records[i].price);
      ValidPriceLoads(records[i].price);
    }
  }

  lemma DateCell(d: Calendar.Date, row: seq<string>)
    requires Calendar.Valid(d) && Calendar.InTimestampRange(d)
    requires |row| > 0 && row[0] == Calendar.FormatIso(d)
    ensures ParseDate(Cell(row, 0)) == Some(Calendar.DayNumber(d))
  {
    Calendar.FormatThenParse(d);
    NamesAreNotMissing(Listing.IPhone8, row[0]);
  }

  lemma ModelCell(m: Listing.ModelType, row: seq<string>)
    requires |row| > 1 && row[1] == m.Name()
    ensures Cell(row, 1) == Some(m.Name())
  {
    NamesAreNotMissing(m, "yyyy-mm-dd");
  }

  /** What a file that passes every check reads as: one row per data line,
      with its date, model and price cells converted. */
  lemma ReadFileRows(f: CsvFile, header: seq<string>, body: seq<seq<string>>, prices: seq<Option<real>>)
    requires NonBlank(f.rows) == [header] + body
    requires !Ragged(header, body)
    requires PriceColumn(header).At? && DateColumn(header).At?
    requires ParsePrices(body, PriceColumn(header).index) == Success(prices)
    ensures ReadFile(f).Success?
    ensures |ReadFile(f).value| == |body|
    ensures forall i :: 0 <= i < |body| ==>
              var mc := IndexOf(header, "Model");
              ReadFile(f).value[i] ==
                Row(ParseDate(Cell(body[i], DateColumn(header).index)),
                    if mc.Some? then Cell(body[i], mc.value) else None,
                    prices[i])
  {
    var lines := NonBlank(f.rows);
    assert lines[0] == header && lines[1..] == body;
  }

  /** A scraped file has no blank line, no ragged row, and its header
      names the price, date and model columns at positions 3, 0 and 1. */
  lemma ScrapedFileShape(date: string, records: seq<Listing.Record>)
    ensures NonBlank([Csv.HEADER] + Csv.Rows(date, records)) == [Csv.HEADER] + Csv.Rows(date, records)
    ensures !Ragged(Csv.HEADER, Csv.Rows(date, records))
    ensures PriceColumn(Csv.HEADER) == At(3)
    ensures DateColumn(Csv.HEADER) == At(0)
    ensures IndexOf(Csv.HEADER, "Model") == Some(1)
  {
    hide *;
    ScrapedRowsKept(date, records);
    HeaderColumns();
  }

  lemma ScrapedRowsKept(date: string, records: seq<Listing.Record>)
    ensures NonBlank([Csv.HEADER] + Csv.Rows(date, records)) == [Csv.HEADER] + Csv.Rows(date, records)
    ensures !Ragged(Csv.HEADER, Csv.Rows(date, records))
  {
    var body := Csv.Rows(date, records);
    var rows := [Csv.HEADER] + body;
    assert forall i :: 0 < i < |rows| ==> rows[i] == body[i - 1];
    NonBlankKeeps(rows);
  }

  lemma HeaderColumns()
    ensures PriceColumn(Csv.HEADER) == At(3)
    ensures DateColumn(Csv.HEADER) == At(0)
    ensures IndexOf(Csv.HEADER, "Model") == Some(1)
  {
    hide IndexOf;
    var h := Csv.HEADER;
    IndexOfAt(h, "Price", 3);
    IndexOfAt(h, "Date", 0);
    IndexOfAt(h, "Model", 1);
    assert "listing_price" !in h && "date" !in h;
    IndexOfAbsent(h, "listing_price");
    IndexOfAbsent(h, "date");
  }

  /** The first position of a name is where it stands when no earlier column
      has it. */
  lemma IndexOfAt(header: seq<string>, name: string, k: nat)
    requires k < |header| && header[k] == name
    requires forall j :: 0 <= j < k ==> header[j] != name
    ensures IndexOf(header, name) == Some(k)
  {
    hide IndexOf;
    assert name in header;
  }

  lemma IndexOfAbsent(header: seq<string>, name: string)
    requires name !in header
    ensures IndexOf(header, name) == None
  {
    hide IndexOf;
  }

  /** The file a scraper run writes loads without error: one row per
      record, dated with the run's day, carrying the record's model type and
      a price that is a number. */
  lemma ScrapedFileLoads(d: Calendar.Date, records: seq<Listing.Record>)
    requires Calendar.Valid(d) && Calendar.InTimestampRange(d)
    requires forall i :: 0 <= i < |records| ==> Price.IsValidPrice(records[i].price)
    ensures var date := Calendar.FormatIso(d);
            var r := ReadFile(CsvFile(Csv.FileName(date), [Csv.HEADER] + Csv.Rows(date, records)));
            && r.Success?
            && |r.value| == |records|
            && forall i :: 0 <= i < |records| ==>
                 && r.value[i].date == Some(Calendar.DayNumber(d))
                 && r.value[i].model == Some(records[i].modelType.Name())
                 && r.value[i].price.Some? && r.value[i].price.value >= 0.0
  {
    var date := Calendar.FormatIso(d);
    var body := Csv.Rows(date, records);
    var rows := [Csv.HEADER] + body;
    var f := CsvFile(Csv.FileName(date), rows);
    ScrapedFileShape(date, records);
    ScrapedPricesParse(date, records);
    var prices := ParsePrices(body, 3).value;
    ReadFileRows(f, Csv.HEADER, body, prices);
    ScrapedCells(d, records);
  }

  lemma ScrapedCells(d: Calendar.Date, records: seq<Listing.Record>)
    requires Calendar.Valid(d) && Calendar.InTimestampRange(d)
    ensures var body := Csv.Rows(Calendar.FormatIso(d), records);
            forall i :: 0 <= i < |records| ==>
              && ParseDate(Cell(body[i], 0)) == Some(Calendar.DayNumber(d))
              && Cell(body[i], 1) == Some(records[i].modelType.Name())
  {
    var body := Csv.Rows(Calendar.FormatIso(d), records);
    forall i | 0 <= i < |records|
      ensures ParseDate(Cell(body[i], 0)) == Some(Calendar.DayNumber(d))
      ensures Cell(body[i], 1) == Some(records[i].modelType.Name())
    {
      DateCell(d, body[i]);
      ModelCell(records[i].modelType, body[i]);
    }
  }

  /** `€ 199,00` loads as 199. */
  lemma PlainPriceExample()
    ensures ParsePrice(Some("€ 199,00")) == Success(Some(199.0))
  {
    ValidPriceReadsAsAmount(" ", "199", "00", false);
    PlainPriceParts();
  }

  lemma PlainPriceParts()
    ensures Price.Compose(" ", "199", "00", false) == "€ 199,00"
    ensures Amount("199", "00") == 199.0
  {
    assert Calendar.FieldValue("199", 0, 1) == 1;
    assert Calendar.FieldValue("199", 0, 2) == 19;
    assert Calendar.FieldValue("00", 0, 1) == 0;
  }

  /** A thousands separator survives as a second decimal point and the
      conversion raises. */
  lemma ThousandsSeparatorRaises()
    ensures ParsePrice(Some("€ 1.234,56")) == Failure(BadPrice("€ 1.234,56"))
  {
    SeparatorText();
    SeparatorFloat();
  }

  lemma SeparatorText()
    ensures ReplaceChar(RemoveChar("€ 1.234,56", Price.EURO), ',', '.') == " 1.234.56"
  {
    SeparatorEuro();
    SeparatorComma();
  }

  lemma SeparatorComma()
    ensures ReplaceChar(" 1.234,56", ',', '.') == " 1.234.56"
  {
  }

  lemma SeparatorEuro()
    ensures RemoveChar("€ 1.234,56", Price.EURO) == " 1.234,56"
  {
    RemoveCharAbsent(" 1.234,56", Price.EURO);
  }

  lemma SeparatorFloat()
    ensures ParseFloat(" 1.234.56") == None
  {
    SeparatorStrip();
    SeparatorNumber();
  }

  lemma SeparatorNumber()
    ensures ParseNumber("1.234.56") == None
  {
    SeparatorDecimal();
    assert "1.234.56"[0] != '-' && "1.234.56"[0] != '+';
  }

  lemma SeparatorStrip()
    ensures Strip(" 1.234.56") == "1.234.56"
  {
    assert !IsSpace('1') && !IsSpace('6');
    assert LeadingSpaces("1.234.56") == 0;
    assert LeadingSpaces(" 1.234.56") == 1;
    assert TrimLeft(" 1.234.56") == "1.234.56";
    assert TrailingSpaces("1.234.56") == 0;
  }

  lemma SeparatorDecimal()
    ensures UnsignedDecimal("1.234.56") == None
    ensures Lower("1.234.56") != "nan"
  {
    assert FirstIndex("1.234.56", '.') == 1;
    assert "1.234.56"[2..][3] == '.';
    assert Lower("1.234.56")[0] == '1';
  }

  /** A price cell spelling NaN loads as a missing price. */
  lemma NanTextExample()
    ensures ParsePrice(Some(" nan ")) == Success(None)
  {
    NanText();
    NanFloat();
  }

  lemma NanText()
    ensures ReplaceChar(RemoveChar(" nan ", Price.EURO), ',', '.') == " nan "
  {
    RemoveCharAbsent(" nan ", Price.EURO);
    ReplaceCharAbsent(" nan ", ',', '.');
  }

  lemma NanFloat()
    ensures ParseFloat(" nan ") == Some(NotANumber)
  {
    assert Strip(" nan ") == "nan" by {
      assert !IsSpace('n');
      assert LeadingSpaces("nan ") == 0;
      assert LeadingSpaces(" nan ") == 1;
      assert TrimLeft(" nan ") == "nan ";
      assert TrailingSpaces("nan") == 0;
      assert TrailingSpaces("nan ") == 1;
    }
    NanNumber();
  }

  lemma NanNumber()
    ensures ParseNumber("nan") == Some(NotANumber)
  {
    assert Lower("nan") == "nan";
  }
}
