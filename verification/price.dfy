/** The scraper's price checks (iPhone8Scrape.py): the `is_valid_price`
    regular expression, the zero-price comparison and the text kept for the
    output file. */
module Price {
  import opened Text

  const EURO: char := '€'

  /** The unanchored body of the pattern `\€\s*\d+,\d{2}`: the euro sign,
      whitespace, at least one digit, a comma and exactly two digits.
      `\s*` is greedy and digits are never whitespace, so the whitespace run
      is exactly what `TrimLeft` removes. */
  predicate MatchesBody(t: string) {
    && |t| >= 1
    && t[0] == EURO
    && var r := TrimLeft(t[1..]);
       && |r| >= 4
       && r[|r| - 3] == ','
       && AllDigits(r[..|r| - 3])
       && IsDigit(r[|r| - 2])
       && IsDigit(r[|r| - 1])
  }

  /** `re.match(r"^\€\s*\d+,\d{2}$", price) is not None`. Without
      `re.MULTILINE`, `$` matches at the very end and also just before a
      single trailing newline. */
  predicate IsValidPrice(s: string) {
    || MatchesBody(s)
    || (|s| >= 1 && s[|s| - 1] == '\n' && MatchesBody(s[..|s| - 1]))
  }

  /** The parts a price text is made of, independent of how it is recognised. */
  predicate WellFormedParts(spaces: string, units: string, cents: string) {
    && AllSpace(spaces)
    && |units| >= 1 && AllDigits(units)
    && |cents| == 2 && AllDigits(cents)
  }

  function Compose(spaces: string, units: string, cents: string, newline: bool): string {
    [EURO] + spaces + units + [','] + cents + (if newline then "\n" else "")
  }

  lemma {:induction false} LeadingSpacesOfParts(spaces: string, rest: string)
    requires AllSpace(spaces)
    requires |rest| > 0 && !IsSpace(rest[0])
    ensures LeadingSpaces(spaces + rest) == |spaces|
    decreases |spaces|
  {
    if |spaces| > 0 {
      assert (spaces + rest)[1..] == spaces[1..] + rest;
      LeadingSpacesOfParts(spaces[1..], rest);
    } else {
      assert spaces + rest == rest;
    }
  }

  lemma MatchesBodyOfParts(spaces: string, units: string, cents: string)
    requires WellFormedParts(spaces, units, cents)
    ensures MatchesBody(Compose(spaces, units, cents, false))
  {
    var t := Compose(spaces, units, cents, false);
    var rest := units + [','] + cents;
    assert t[1..] == spaces + rest;
    assert IsDigit(rest[0]);
    LeadingSpacesOfParts(spaces, rest);
    assert TrimLeft(t[1..]) == rest;
    assert rest[..|rest| - 3] == units;
  }

  lemma ShapeOfParts(t: string, u: string, spaces: string, r: string, units: string, cents: string)
    requires t == [EURO] + u && u == spaces + r && r == units + [','] + cents
    ensures t == Compose(spaces, units, cents, false)
  {
  }

  lemma PartsOfMatchesBody(t: string) returns (spaces: string, units: string, cents: string)
    requires MatchesBody(t)
    ensures WellFormedParts(spaces, units, cents)
    ensures t == Compose(spaces, units, cents, false)
  {
    var u := t[1..];
    var n := LeadingSpaces(u);
    var r := u[n..];
    spaces := u[..n];
    units := r[..|r| - 3];
    cents := r[|r| - 2..];
    assert AllDigits(cents) by {
      assert cents[0] == r[|r| - 2] && cents[1] == r[|r| - 1];
    }
    assert WellFormedParts(spaces, units, cents);
    SplitAt(t, u, n, spaces, r, units, cents);
  }

  lemma SplitAt(t: string, u: string, n: int, spaces: string, r: string, units: string, cents: string)
    requires |t| >= 1 && t[0] == EURO && u == t[1..]
    requires 0 <= n <= |u| && spaces == u[..n] && r == u[n..]
    requires |r| >= 4 && r[|r| - 3] == ',' && units == r[..|r| - 3] && cents == r[|r| - 2..]
    ensures t == Compose(spaces, units, cents, false)
  {
    assert u == spaces + r;
    assert r == units + [','] + cents;
    assert t == [EURO] + u;
    ShapeOfParts(t, u, spaces, r, units, cents);
  }

  /** The regular expression accepts exactly the texts made of a euro sign,
      optional whitespace (U+00A0 included), one or more digits, a comma, two
      digits, and at most one trailing newline. There is no thousands
      separator. */
  lemma ValidPriceIff(s: string)
    ensures IsValidPrice(s) <==>
            exists spaces, units, cents, newline ::
              WellFormedParts(spaces, units, cents) && s == Compose(spaces, units, cents, newline)
  {
    if IsValidPrice(s) {
      var spaces, units, cents, newline := PartsOfValid(s);
    } else {
      forall spaces, units, cents, newline | WellFormedParts(spaces, units, cents)
        ensures s != Compose(spaces, units, cents, newline)
      {
        ValidOfParts(spaces, units, cents, newline);
      }
    }
  }

  lemma PartsOfValid(s: string) returns (spaces: string, units: string, cents: string, newline: bool)
    requires IsValidPrice(s)
    ensures WellFormedParts(spaces, units, cents) && s == Compose(spaces, units, cents, newline)
  {
    if MatchesBody(s) {
      spaces, units, cents := PartsOfMatchesBody(s);
      newline := false;
    } else {
      spaces, units, cents := PartsOfMatchesBody(s[..|s| - 1]);
      newline := true;
      assert s == s[..|s| - 1] + "\n";
    }
  }

  /** Well-formed parts make a valid price, with or without the newline. */
  lemma ValidOfParts(spaces: string, units: string, cents: string, newline: bool)
    requires WellFormedParts(spaces, units, cents)
    ensures IsValidPrice(Compose(spaces, units, cents, newline))
  {
    MatchesBodyOfParts(spaces, units, cents);
    var body := Compose(spaces, units, cents, false);
    if newline {
      var s := Compose(spaces, units, cents, newline);
      assert s == body + "\n";
      assert s[..|s| - 1] == body;
    }
  }

  /** A thousands separator makes the text invalid. */
  lemma ThousandsSeparatorRejected()
    ensures !IsValidPrice("€ 1.234,56")
  {
    var t := "€ 1.234,56";
    assert LeadingSpaces(t[1..][1..]) == 0;
    assert LeadingSpaces(t[1..]) == 1;
    assert TrimLeft(t[1..]) == "1.234,56";
    assert "1.234,56"[..5][1] == '.';
  }

  /** What the scraper compares against and stores:
      `price.replace('\xa0', ' ').strip()`. */
  function Normalize(s: string): string {
    Strip(ReplaceChar(s, NBSP, ' '))
  }

  const ZERO_TEXT: string := "€ 0,00"

  /** The zero-price skip: `price.replace('\xa0', ' ').strip() == '€ 0,00'`. */
  predicate IsZeroPrice(s: string) {
    Normalize(s) == ZERO_TEXT
  }

  /** The text without the one trailing newline `$` tolerates. */
  function Body(s: string): string {
    if |s| >= 1 && s[|s| - 1] == '\n' then s[..|s| - 1] else s
  }

  lemma ValidBodyEnds(s: string)
    requires IsValidPrice(s)
    ensures var b := Body(s);
            && |b| >= 5 && b[0] == EURO && IsDigit(b[|b| - 1])
            && (b == s || s == b + "\n")
  {
    ValidBody(s);
    MatchedEnds(Body(s));
  }

  /** A valid price is its body, perhaps followed by one newline, and the
      body matches the pattern. */
  lemma ValidBody(s: string)
    requires IsValidPrice(s)
    ensures MatchesBody(Body(s))
    ensures Body(s) == s || s == Body(s) + "\n"
  {
    hide MatchesBody;
    if Body(s) != s {
      NewlineUnmatched(s);
      assert s == s[..|s| - 1] + "\n";
    }
  }

  /** The pattern ends with a digit, so a text ending in a newline does not
      match it. */
  lemma NewlineUnmatched(t: string)
    requires |t| >= 1 && t[|t| - 1] == '\n'
    ensures !MatchesBody(t)
  {
    if |t| >= 2 {
      var r := TrimLeft(t[1..]);
      if |r| >= 1 {
        assert r[|r| - 1] == t[|t| - 1];
      }
    }
  }

  /** A text the pattern matches opens with the euro sign and ends with a
      digit. */
  lemma MatchedEnds(b: string)
    requires MatchesBody(b)
    ensures |b| >= 5 && b[0] == EURO && IsDigit(b[|b| - 1])
  {
    var u := b[1..];
    var r := u[LeadingSpaces(u)..];
    assert b[|b| - 1] == r[|r| - 1];
  }

  lemma StripUnspaced(x: string)
    requires |x| > 0 && !IsSpace(x[0]) && !IsSpace(x[|x| - 1])
    ensures Strip(x) == x
    ensures Strip(x + "\n") == x
  {
    StripIdentity(x);
    var y := x + "\n";
    assert LeadingSpaces(y) == 0;
    assert TrimLeft(y) == y;
    assert y[..|y| - 1] == x;
    assert TrailingSpaces(y) == 1;
  }

  /** On a valid price, normalising only turns U+00A0 into spaces and drops the
      trailing newline: the euro sign and the last digit are never whitespace. */
  lemma NormalizeValid(s: string)
    requires IsValidPrice(s)
    ensures Normalize(s) == ReplaceChar(Body(s), NBSP, ' ')
  {
    hide IsValidPrice, MatchesBody, Strip;
    ValidBodyEnds(s);
    var b := Body(s);
    var rb := ReplaceChar(b, NBSP, ' ');
    assert !IsSpace(rb[0]) && !IsSpace(rb[|rb| - 1]);
    StripUnspaced(rb);
    if b != s {
      ReplaceCharAppend(b, "\n", NBSP, ' ');
      assert ReplaceChar("\n", NBSP, ' ') == "\n";
    }
  }

  /** Among valid prices, exactly four spellings are skipped as zero: a single
      space or U+00A0 between the euro sign and `0,00`, with or without the
      trailing newline. `€0,00`, `€  0,00` and `€ 00,00` are valid and not
      skipped. */
  lemma ZeroPriceIff(s: string)
    requires IsValidPrice(s)
    ensures IsZeroPrice(s) <==>
            Body(s) == "€ 0,00" || Body(s) == [EURO, NBSP] + "0,00"
  {
    NormalizeValid(s);
    ReplacedZero(Body(s));
  }

  lemma ReplacedZero(b: string)
    ensures ReplaceChar(b, NBSP, ' ') == ZERO_TEXT <==>
            b == "€ 0,00" || b == [EURO, NBSP] + "0,00"
  {
    var rb := ReplaceChar(b, NBSP, ' ');
    if rb == ZERO_TEXT {
      assert |b| == 6;
      assert b[0] == rb[0] == EURO;
      assert b[1] == ' ' || b[1] == NBSP;
      assert b[2] == rb[2] && b[3] == rb[3] && b[4] == rb[4] && b[5] == rb[5];
      assert b[2..] == "0,00";
      assert b == [b[0], b[1]] + b[2..];
    }
  }

  lemma ZeroSpellings()
    ensures IsValidPrice("€ 0,00") && IsZeroPrice("€ 0,00")
    ensures IsValidPrice("€0,00") && !IsZeroPrice("€0,00")
  {
    hide *;
    SpacedZeroValid();
    UnspacedZeroValid();
    ZeroPriceIff("€ 0,00");
    ZeroPriceIff("€0,00");
    assert "€0,00" != "€ 0,00" && "€0,00" != [EURO, NBSP] + "0,00" by {
      assert |"€0,00"| == 5;
    }
  }

  lemma SpacedZeroValid()
    ensures IsValidPrice("€ 0,00") && Body("€ 0,00") == "€ 0,00"
  {
    assert !IsSpace('0');
    assert LeadingSpaces("0,00") == 0;
    assert LeadingSpaces(" 0,00") == 1;
    assert TrimLeft(" 0,00") == "0,00";
    assert "€ 0,00"[1..] == " 0,00";
  }

  lemma UnspacedZeroValid()
    ensures IsValidPrice("€0,00") && Body("€0,00") == "€0,00"
  {
    assert !IsSpace('0');
    assert LeadingSpaces("0,00") == 0;
    assert "€0,00"[1..] == "0,00";
  }

  /** Normalising a valid price keeps its digits and turns the whitespace
      between the euro sign and the digits into ASCII spaces where it was
      U+00A0. */
  lemma NormalizeParts(spaces: string, units: string, cents: string, newline: bool)
    requires WellFormedParts(spaces, units, cents)
    ensures Normalize(Compose(spaces, units, cents, newline))
            == Compose(ReplaceChar(spaces, NBSP, ' '), units, cents, false)
  {
    var s := Compose(spaces, units, cents, newline);
    MatchesBodyOfParts(spaces, units, cents);
    BodyOfCompose(spaces, units, cents, newline);
    NormalizeValid(s);
    ReplaceInCompose(spaces, units, cents);
  }

  lemma BodyOfCompose(spaces: string, units: string, cents: string, newline: bool)
    requires |cents| == 2 && AllDigits(cents)
    ensures Body(Compose(spaces, units, cents, newline)) == Compose(spaces, units, cents, false)
  {
    var s := Compose(spaces, units, cents, newline);
    var b := Compose(spaces, units, cents, false);
    if newline {
      assert s == b + "\n";
      assert s[..|s| - 1] == b;
    } else {
      assert s == b;
      assert s[|s| - 1] == cents[1];
    }
  }

  lemma ReplaceInCompose(spaces: string, units: string, cents: string)
    requires AllDigits(units) && AllDigits(cents)
    ensures ReplaceChar(Compose(spaces, units, cents, false), NBSP, ' ')
            == Compose(ReplaceChar(spaces, NBSP, ' '), units, cents, false)
  {
    var rest := units + [','] + cents;
    assert Compose(spaces, units, cents, false) == [EURO] + spaces + rest;
    assert Compose(ReplaceChar(spaces, NBSP, ' '), units, cents, false)
        == [EURO] + ReplaceChar(spaces, NBSP, ' ') + rest;
    assert ReplaceChar(rest, NBSP, ' ') == rest by {
      assert forall i :: 0 <= i < |rest| ==> rest[i] != NBSP;
    }
    ReplaceCharAppend([EURO] + spaces, rest, NBSP, ' ');
    ReplaceCharAppend([EURO], spaces, NBSP, ' ');
    assert ReplaceChar([EURO], NBSP, ' ') == [EURO];
  }

  /** The text the scraper stores is itself a valid price, and normalising it
      again changes nothing. */
  lemma NormalizeValidIdempotent(s: string)
    requires IsValidPrice(s)
    ensures IsValidPrice(Normalize(s))
    ensures Normalize(Normalize(s)) == Normalize(s)
  {
    hide *;
    ValidPriceIff(s);
    var spaces, units, cents, newline :|
      WellFormedParts(spaces, units, cents) && s == Compose(spaces, units, cents, newline);
    NormalizeParts(spaces, units, cents, newline);
    var spaces' := ReplaceChar(spaces, NBSP, ' ');
    SpacesReplaced(spaces, units, cents);
    ValidPriceIff(Normalize(s));
    assert WellFormedParts(spaces', units, cents) && Normalize(s) == Compose(spaces', units, cents, false);
    NormalizeParts(spaces', units, cents, false);
  }

  /** Turning U+00A0 into spaces keeps the parts well formed, and doing it
      twice is doing it once. */
  lemma SpacesReplaced(spaces: string, units: string, cents: string)
    requires WellFormedParts(spaces, units, cents)
    ensures WellFormedParts(ReplaceChar(spaces, NBSP, ' '), units, cents)
    ensures ReplaceChar(ReplaceChar(spaces, NBSP, ' '), NBSP, ' ') == ReplaceChar(spaces, NBSP, ' ')
  {
  }
}
