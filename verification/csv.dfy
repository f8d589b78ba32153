/** The scraper's CSV output (iPhone8Scrape.py, lines 167-179): one header
    row and one row per record, written with the `csv` module's minimal
    quoting, and a strict reader for the text that writer produces. */
module Csv {
  import opened Wrappers
  import opened Listing

  /** The header as written. The last two names are swapped with respect to
      the data rows: the column named `Link` holds descriptions and the
      column named `Description` holds links. */
  const HEADER: seq<string> := ["Date", "Model", "Capacity", "Price", "Link", "Description"]

  const TERMINATOR: string := "\r\n"

  /** One data row: the run date, the model type, the capacity label (empty
      when unknown, as `None` is written), the price, the description and the
      link. */
  function DataRow(date: string, r: Record): (row: seq<string>)
    ensures |row| == |HEADER|
    ensures row[0] == date && row[3] == r.price
  {
    var capacity := match r.capacity case None => "" case Some(c) => c.Label();
    [date, r.modelType.Name(), capacity, r.price, r.description, r.link]
  }

  /** The characters that force minimal quoting: the delimiter, the quote
      character and the two characters of the line terminator. */
  predicate Special(c: char) {
    c == ',' || c == '"' || c == '\r' || c == '\n'
  }

  predicate Plain(f: string) {
    forall i :: 0 <= i < |f| ==> !Special(f[i])
  }

  /** Every quote character doubled. */
  function Escape(f: string): (e: string)
    ensures |e| >= |f|
    decreases |f|
  {
    if |f| == 0 then ""
    else (if f[0] == '"' then "\"\"" else [f[0]]) + Escape(f[1..])
  }

  function Quote(f: string): string {
    "\"" + Escape(f) + "\""
  }

  function EncodeField(f: string): string {
    if Plain(f) then f else Quote(f)
  }

  /** The fields of a non-empty row joined by the delimiter. */
  function JoinFields(fields: seq<string>): string
    requires |fields| >= 1
    decreases |fields|
  {
    if |fields| == 1 then EncodeField(fields[0])
    else EncodeField(fields[0]) + "," + JoinFields(fields[1..])
  }

  /** `writerow`: a row consisting of one empty field is written as a quoted
      empty string so that it differs from an empty row. */
  function EncodeRow(fields: seq<string>): string {
    if |fields| == 0 then TERMINATOR
    else if fields == [""] then Quote("") + TERMINATOR
    else JoinFields(fields) + TERMINATOR
  }

  function EncodeRows(rows: seq<seq<string>>): string
    decreases |rows|
  {
    if |rows| == 0 then "" else EncodeRow(rows[0]) + EncodeRows(rows[1..])
  }

  function Rows(date: string, records: seq<Record>): (rows: seq<seq<string>>)
    ensures |rows| == |records|
    ensures forall i :: 0 <= i < |rows| ==> rows[i] == DataRow(date, records[i])
  {
    seq(|records|, i requires 0 <= i < |records| => DataRow(date, records[i]))
  }

  /** The whole file written for one run. */
  function WriteListings(date: string, records: seq<Record>): string {
    EncodeRows([HEADER] + Rows(date, records))
  }

  /** The output file name for a run date: `iphone_8_` followed by the date. */
  function FileName(date: string): string {
    "iphone_8_" + date + ".csv"
  }

  // ---------------------------------------------------------------------
  // Reading back

  /** The number of leading characters that can belong to an unquoted field. */
  function PlainPrefix(s: string): (k: nat)
    ensures k <= |s|
    ensures Plain(s[..k])
    ensures k < |s| ==> Special(s[k])
    decreases |s|
  {
    if |s| == 0 || Special(s[0]) then 0
    else
      var k := PlainPrefix(s[1..]);
      assert s[..k + 1] == [s[0]] + s[1..][..k];
      k + 1
  }

  /** The rest of a quoted field after its opening quote: the unescaped value
      and the number of characters up to and including the closing quote. */
  function QuotedBody(s: string): (r: Option<(string, nat)>)
    ensures r.Some? ==> 0 < r.value.1 <= |s|
    decreases |s|
  {
    if |s| == 0 then None
    else if s[0] == '"' then
      if |s| > 1 && s[1] == '"' then
        match QuotedBody(s[2..])
        case None => None
        case Some(body) => Some(("\"" + body.0, body.1 + 2))
      else Some(("", 1))
    else
      match QuotedBody(s[1..])
      case None => None
      case Some(body) => Some(([s[0]] + body.0, body.1 + 1))
  }

  /** One field at the start of `s`: its value and the characters it spans.
      A quote inside an unquoted field is rejected. */
  function DecodeField(s: string): (r: Option<(string, nat)>)
    ensures r.Some? ==> r.value.1 <= |s|
  {
    if |s| > 0 && s[0] == '"' then
      match QuotedBody(s[1..])
      case None => None
      case Some(body) => Some((body.0, body.1 + 1))
    else
      var k := PlainPrefix(s);
      if k < |s| && s[k] == '"' then None else Some((s[..k], k))
  }

  /** One row at the start of `s`, up to and including its terminator. */
  function DecodeRow(s: string): (r: Option<(seq<string>, nat)>)
    ensures r.Some? ==> |r.value.0| >= 1 && 0 < r.value.1 <= |s|
    decreases |s|
  {
    match DecodeField(s)
    case None => None
    case Some(field) =>
      var after := s[field.1..];
      if |after| >= 2 && after[0] == '\r' && after[1] == '\n' then Some(([field.0], field.1 + 2))
      else if |after| >= 1 && after[0] == ',' then
        match DecodeRow(after[1..])
        case None => None
        case Some(rest) => Some(([field.0] + rest.0, field.1 + 1 + rest.1))
      else None
  }

  function DecodeRows(s: string): Option<seq<seq<string>>>
    decreases |s|
  {
    if |s| == 0 then Some([])
    else
      match DecodeRow(s)
      case None => None
      case Some(row) =>
        match DecodeRows(s[row.1..])
        case None => None
        case Some(rows) => Some([row.0] + rows)
  }

  // ---------------------------------------------------------------------
  // Round trip

  lemma {:induction false} PlainPrefixOfPlain(f: string, rest: string)
    requires Plain(f)
    requires |rest| > 0 && Special(rest[0])
    ensures PlainPrefix(f + rest) == |f|
    decreases |f|
  {
    if |f| > 0 {
      assert (f + rest)[0] == f[0];
      assert (f + rest)[1..] == f[1..] + rest;
      PlainPrefixOfPlain(f[1..], rest);
    } else {
      assert f + rest == rest;
    }
  }

  lemma {:induction false} QuotedBodyOfEscape(f: string, rest: string)
    requires |rest| == 0 || rest[0] != '"'
    ensures QuotedBody(Escape(f) + "\"" + rest) == Some((f, |Escape(f)| + 1))
    decreases |f|
  {
    if |f| == 0 {
      assert Escape(f) + "\"" + rest == "\"" + rest;
    } else {
      QuotedBodyOfEscape(f[1..], rest);
      if f[0] == '"' {
        EscapedQuoteStep(f, rest);
      } else {
        EscapedCharStep(f, rest);
      }
    }
  }

  /** A doubled quote in the escaped text reads back as one quote. */
  lemma EscapedQuoteStep(f: string, rest: string)
    requires |f| > 0 && f[0] == '"'
    requires QuotedBody(Escape(f[1..]) + "\"" + rest) == Some((f[1..], |Escape(f[1..])| + 1))
    ensures QuotedBody(Escape(f) + "\"" + rest) == Some((f, |Escape(f)| + 1))
  {
    var s := Escape(f) + "\"" + rest;
    assert s == "\"\"" + (Escape(f[1..]) + "\"" + rest);
    assert s[2..] == Escape(f[1..]) + "\"" + rest;
    assert "\"" + f[1..] == f;
  }

  /** Any other character of the escaped text reads back as itself. */
  lemma EscapedCharStep(f: string, rest: string)
    requires |f| > 0 && f[0] != '"'
    requires QuotedBody(Escape(f[1..]) + "\"" + rest) == Some((f[1..], |Escape(f[1..])| + 1))
    ensures QuotedBody(Escape(f) + "\"" + rest) == Some((f, |Escape(f)| + 1))
  {
    var s := Escape(f) + "\"" + rest;
    assert s == [f[0]] + (Escape(f[1..]) + "\"" + rest);
    assert s[1..] == Escape(f[1..]) + "\"" + rest;
    assert [f[0]] + f[1..] == f;
  }

  lemma DecodeQuoted(f: string, rest: string)
    requires |rest| > 0 && (rest[0] == ',' || rest[0] == '\r')
    ensures DecodeField(Quote(f) + rest) == Some((f, |Quote(f)|))
  {
    var s := Quote(f) + rest;
    assert s[1..] == Escape(f) + "\"" + rest;
    QuotedBodyOfEscape(f, rest);
  }

  lemma DecodePlain(f: string, rest: string)
    requires Plain(f)
    requires |rest| > 0 && (rest[0] == ',' || rest[0] == '\r')
    ensures DecodeField(f + rest) == Some((f, |f|))
  {
    PlainPrefixOfPlain(f, rest);
    assert (f + rest)[..|f|] == f;
    if |f| > 0 {
      assert (f + rest)[0] == f[0];
    }
  }

  /** A field written by the writer reads back as itself, whatever follows
      the delimiter or terminator after it. */
  lemma FieldRoundTrip(f: string, rest: string)
    requires |rest| > 0 && (rest[0] == ',' || rest[0] == '\r')
    ensures DecodeField(EncodeField(f) + rest) == Some((f, |EncodeField(f)|))
  {
    if Plain(f) {
      DecodePlain(f, rest);
    } else {
      DecodeQuoted(f, rest);
    }
  }

  lemma DecodeRowLast(s: string, v: string, k: nat, rest: string)
    requires DecodeField(s) == Some((v, k))
    requires s[k..] == TERMINATOR + rest
    ensures DecodeRow(s) == Some(([v], k + 2))
  {
  }

  lemma DecodeRowNext(s: string, v: string, k: nat, tail: string)
    requires DecodeField(s) == Some((v, k))
    requires s[k..] == "," + tail
    requires DecodeRow(tail).Some?
    ensures DecodeRow(s) == Some(([v] + DecodeRow(tail).value.0, k + 1 + DecodeRow(tail).value.1))
  {
    assert s[k..][1..] == tail;
  }

  lemma JoinedShape(fields: seq<string>, rest: string)
    requires |fields| >= 2
    ensures JoinFields(fields) + TERMINATOR + rest
            == EncodeField(fields[0]) + ("," + (JoinFields(fields[1..]) + TERMINATOR + rest))
  {
    var a := EncodeField(fields[0]);
    var b := JoinFields(fields[1..]);
    assert JoinFields(fields) == a + "," + b;
    Regroup(a, ",", b, TERMINATOR, rest);
  }

  /** Concatenation regrouped, proved where no field encoding is in view. */
  lemma Regroup(a: string, b: string, c: string, d: string, e: string)
    ensures a + b + c + d + e == a + (b + (c + d + e))
  {
  }

  lemma DropPrefix(a: string, b: string)
    ensures (a + b)[|a|..] == b
  {
  }

  lemma JoinedSingle(f: string, rest: string)
    ensures DecodeRow(JoinFields([f]) + TERMINATOR + rest) == Some(([f], |JoinFields([f])| + 2))
  {
    var head := EncodeField(f);
    var s := JoinFields([f]) + TERMINATOR + rest;
    assert JoinFields([f]) == head;
    assert s == head + (TERMINATOR + rest);
    FieldRoundTrip(f, TERMINATOR + rest);
    DropPrefix(head, TERMINATOR + rest);
    DecodeRowLast(s, f, |head|, rest);
  }

  lemma JoinedCons(fields: seq<string>, rest: string)
    requires |fields| >= 2
    requires DecodeRow(JoinFields(fields[1..]) + TERMINATOR + rest)
             == Some((fields[1..], |JoinFields(fields[1..])| + 2))
    ensures DecodeRow(JoinFields(fields) + TERMINATOR + rest)
            == Some((fields, |JoinFields(fields)| + 2))
  {
    hide *;
    var f := fields[0];
    var head := EncodeField(f);
    var s := JoinFields(fields) + TERMINATOR + rest;
    var tail := JoinFields(fields[1..]) + TERMINATOR + rest;
    JoinedShape(fields, rest);
    FieldRoundTrip(f, "," + tail);
    DropPrefix(head, "," + tail);
    DecodeRowNext(s, f, |head|, tail);
    assert [f] + fields[1..] == fields;
  }

  lemma {:induction false} JoinedRoundTrip(fields: seq<string>, rest: string)
    requires |fields| >= 1
    ensures DecodeRow(JoinFields(fields) + TERMINATOR + rest)
            == Some((fields, |JoinFields(fields)| + 2))
    decreases |fields|
  {
    if |fields| == 1 {
      JoinedSingle(fields[0], rest);
      assert [fields[0]] == fields;
    } else {
      JoinedRoundTrip(fields[1..], rest);
      JoinedCons(fields, rest);
    }
  }

  /** Every non-empty row written by `writerow` reads back as the same
      fields, and the reader stops right after its terminator. */
  lemma RowRoundTrip(fields: seq<string>, rest: string)
    requires |fields| >= 1
    ensures DecodeRow(EncodeRow(fields) + rest) == Some((fields, |EncodeRow(fields)|))
  {
    if fields == [""] {
      var s := EncodeRow(fields) + rest;
      assert s == Quote("") + (TERMINATOR + rest);
      DecodeQuoted("", TERMINATOR + rest);
      assert s[|Quote("")|..] == TERMINATOR + rest;
    } else {
      assert EncodeRow(fields) + rest == JoinFields(fields) + TERMINATOR + rest;
      JoinedRoundTrip(fields, rest);
    }
  }

  /** A file of non-empty rows reads back as exactly those rows. */
  lemma {:induction false} RowsRoundTrip(rows: seq<seq<string>>)
    requires forall i :: 0 <= i < |rows| ==> |rows[i]| >= 1
    ensures DecodeRows(EncodeRows(rows)) == Some(rows)
    decreases |rows|
  {
    if |rows| > 0 {
      var s := EncodeRows(rows);
      RowRoundTrip(rows[0], EncodeRows(rows[1..]));
      assert s[|EncodeRow(rows[0])|..] == EncodeRows(rows[1..]);
      RowsRoundTrip(rows[1..]);
      assert [rows[0]] + rows[1..] == rows;
    }
  }

  /** Reading the written file gives the header followed by one row per
      record, in collection order. */
  lemma WrittenFileReadsBack(date: string, records: seq<Record>)
    ensures DecodeRows(WriteListings(date, records)) == Some([HEADER] + Rows(date, records))
  {
    var rows := [HEADER] + Rows(date, records);
    assert forall i :: 0 <= i < |rows| ==> |rows[i]| >= 1 by {
      forall i | 0 <= i < |rows|
        ensures |rows[i]| >= 1
      {
        if i > 0 {
          assert rows[i] == DataRow(date, records[i - 1]);
        }
      }
    }
    RowsRoundTrip(rows);
  }

  /** Read back under the written header, the column named `Link` holds the
      description and the column named `Description` holds the link. */
  lemma SwappedColumns(date: string, r: Record)
    ensures HEADER[4] == "Link" && DataRow(date, r)[4] == r.description
    ensures HEADER[5] == "Description" && DataRow(date, r)[5] == r.link
    ensures HEADER[2] == "Capacity" && (DataRow(date, r)[2] == "" <==> r.capacity.None?)
  {
    if r.capacity.Some? {
      assert r.capacity.value.Label() != "";
    }
  }
}
