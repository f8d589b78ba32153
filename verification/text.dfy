/** Python string primitives used by the scraper and the analysis scripts:
    whitespace and digit classes, `in`, `startswith`/`endswith`, `strip`,
    `lower`, `replace`, and case-insensitive matching as the `re` module
    performs it for the ASCII patterns the scripts use. */
module Text {
  import opened Seqs

  const NBSP: char := '\U{A0}'

  /** The characters for which Python's `str.isspace()` holds. The `\s`
      class of a `str` regular expression and `str.strip()` use the same set,
      so U+00A0 (no-break space) is whitespace for both. */
  predicate IsSpace(c: char) {
    || ('\t' <= c <= '\r')
    || ('\U{1C}' <= c <= '\U{1F}')
    || c == ' '
    || c == '\U{85}'
    || c == NBSP
    || c == '\U{1680}'
    || ('\U{2000}' <= c <= '\U{200A}')
    || c == '\U{2028}'
    || c == '\U{2029}'
    || c == '\U{202F}'
    || c == '\U{205F}'
    || c == '\U{3000}'
  }

  predicate IsDigit(c: char) {
    '0' <= c <= '9'
  }

  predicate AllDigits(s: string) {
    forall i :: 0 <= i < |s| ==> IsDigit(s[i])
  }

  predicate AllSpace(s: string) {
    forall i :: 0 <= i < |s| ==> IsSpace(s[i])
  }

  lemma AllSpaceSnoc(s: string, c: char)
    requires AllSpace(s) && IsSpace(c)
    ensures AllSpace(s + [c])
  {
    assert forall i :: 0 <= i < |s| ==> (s + [c])[i] == s[i];
  }

  predicate StartsWith(s: string, prefix: string) {
    |prefix| <= |s| && s[..|prefix|] == prefix
  }

  predicate EndsWith(s: string, suffix: string) {
    |suffix| <= |s| && s[|s| - |suffix|..] == suffix
  }

  /** Python's `needle in s`, scanning left to right. */
  predicate Contains(s: string, needle: string)
    decreases |s|
  {
    if StartsWith(s, needle) then true
    else if |s| == 0 then false
    else Contains(s[1..], needle)
  }

  /** The needle occurs in the text starting at position `i`. */
  predicate OccursAt(s: string, needle: string, i: int) {
    0 <= i && i + |needle| <= |s| && s[i..i + |needle|] == needle
  }

  /** `Contains` holds exactly when the needle occurs at some position. */
  lemma {:induction false} ContainsIff(s: string, needle: string)
    ensures Contains(s, needle) <==> exists i :: OccursAt(s, needle, i)
    decreases |s|
  {
    if StartsWith(s, needle) {
      assert OccursAt(s, needle, 0);
    } else if |s| == 0 {
    } else {
      ContainsIff(s[1..], needle);
      if Contains(s[1..], needle) {
        var i :| OccursAt(s[1..], needle, i);
        assert s[i + 1..i + 1 + |needle|] == s[1..][i..i + |needle|];
        assert OccursAt(s, needle, i + 1);
      } else {
        forall i | 0 <= i && i + |needle| <= |s|
          ensures !OccursAt(s, needle, i)
        {
          if i == 0 {
            assert s[..|needle|] == s[0..0 + |needle|];
          } else {
            assert s[i..i + |needle|] == s[1..][i - 1..i - 1 + |needle|];
            assert !OccursAt(s[1..], needle, i - 1);
          }
        }
      }
    }
  }

  /** Every character of a contained needle occurs in the text. */
  lemma {:induction false} ContainsHasChars(s: string, needle: string, k: int)
    requires Contains(s, needle)
    requires 0 <= k < |needle|
    ensures needle[k] in s
    decreases |s|
  {
    if StartsWith(s, needle) {
      assert s[k] == needle[k];
    } else {
      ContainsHasChars(s[1..], needle, k);
    }
  }

  /** The number of leading whitespace characters. */
  function LeadingSpaces(s: string): (k: nat)
    ensures k <= |s|
    ensures AllSpace(s[..k])
    ensures k < |s| ==> !IsSpace(s[k])
    decreases |s|
  {
    if |s| > 0 && IsSpace(s[0]) then
      var k := LeadingSpaces(s[1..]);
      assert s[..k + 1] == [s[0]] + s[1..][..k];
      k + 1
    else 0
  }

  /** The number of trailing whitespace characters. */
  function TrailingSpaces(s: string): (k: nat)
    ensures k <= |s|
    ensures AllSpace(s[|s| - k..])
    ensures k < |s| ==> !IsSpace(s[|s| - k - 1])
    decreases |s|
  {
    if |s| > 0 && IsSpace(s[|s| - 1]) then
      var t := s[..|s| - 1];
      var k := TrailingSpaces(t);
      SuffixSnoc(s, k);
      AllSpaceSnoc(t[|t| - k..], s[|s| - 1]);
      k + 1
    else 0
  }

  /** The text with leading whitespace removed. */
  function TrimLeft(s: string): string {
    s[LeadingSpaces(s)..]
  }

  /** The text with trailing whitespace removed. */
  function TrimRight(s: string): string {
    s[..|s| - TrailingSpaces(s)]
  }

  /** Python's `str.strip()` with no argument. */
  function Strip(s: string): string {
    TrimRight(TrimLeft(s))
  }

  /** `Strip` leaves a text alone exactly when it neither starts nor ends with whitespace. */
  lemma StripIdentity(s: string)
    requires |s| > 0 ==> !IsSpace(s[0]) && !IsSpace(s[|s| - 1])
    ensures Strip(s) == s
  {
  }

  /** `s.replace(a, b)` for single characters. */
  function ReplaceChar(s: string, a: char, b: char): (r: string)
    ensures |r| == |s|
    ensures forall i :: 0 <= i < |s| ==> r[i] == (if s[i] == a then b else s[i])
  {
    seq(|s|, i requires 0 <= i < |s| => if s[i] == a then b else s[i])
  }

  lemma ReplaceCharAppend(a: string, b: string, x: char, y: char)
    ensures ReplaceChar(a + b, x, y) == ReplaceChar(a, x, y) + ReplaceChar(b, x, y)
  {
  }

  /** Replacing a character that does not occur changes nothing. */
  lemma ReplaceCharAbsent(s: string, x: char, y: char)
    requires x !in s
    ensures ReplaceChar(s, x, y) == s
  {
    assert forall i :: 0 <= i < |s| ==> s[i] != x;
  }

  /** `s.replace(c, '')`: the text with every occurrence of one character deleted. */
  function RemoveChar(s: string, c: char): (r: string)
    ensures c !in r
    ensures |r| <= |s|
    ensures forall x :: x != c ==> multiset(r)[x] == multiset(s)[x]
  {
    if |s| == 0 then []
    else
      assert s == [s[0]] + s[1..];
      if s[0] == c then RemoveChar(s[1..], c) else [s[0]] + RemoveChar(s[1..], c)
  }

  /** Deleting a character that does not occur changes nothing. */
  lemma {:induction false} RemoveCharAbsent(s: string, c: char)
    requires c !in s
    ensures RemoveChar(s, c) == s
    decreases |s|
  {
    if |s| > 0 {
      assert s[0] != c && c !in s[1..];
      RemoveCharAbsent(s[1..], c);
      assert s == [s[0]] + s[1..];
    }
  }

  /** Python's `str.lower()` on the ASCII letters. */
  function LowerChar(c: char): char {
    if 'A' <= c <= 'Z' then (c as int + 32) as char else c
  }

  function Lower(s: string): (r: string)
    ensures |r| == |s|
    ensures forall i :: 0 <= i < |s| ==> r[i] == LowerChar(s[i])
  {
    seq(|s|, i requires 0 <= i < |s| => LowerChar(s[i]))
  }

  /** No upper-case ASCII letter survives lowering. */
  lemma LowerHasNoUpper(s: string, c: char)
    requires 'A' <= c <= 'Z'
    ensures c !in Lower(s)
  {
  }

  /** The case folding applied by a `re.IGNORECASE` match: ASCII letters fold
      to lower case, and `re` also lets U+0130, U+0131 match `i`, U+017F match
      `s` and U+212A (Kelvin sign) match `k`. For a pattern made of ASCII
      characters, two characters match exactly when their folds are equal. */
  function Fold(c: char): char {
    if 'A' <= c <= 'Z' then (c as int + 32) as char
    else if c == '\U{130}' || c == '\U{131}' then 'i'
    else if c == '\U{17F}' then 's'
    else if c == '\U{212A}' then 'k'
    else c
  }

  function FoldAll(s: string): (r: string)
    ensures |r| == |s|
    ensures forall i :: 0 <= i < |s| ==> r[i] == Fold(s[i])
  {
    seq(|s|, i requires 0 <= i < |s| => Fold(s[i]))
  }

  lemma FoldAllAppend(a: string, b: string)
    ensures FoldAll(a + b) == FoldAll(a) + FoldAll(b)
  {
  }

  lemma FoldAllSlice(s: string, i: int, j: int)
    requires 0 <= i <= j <= |s|
    ensures FoldAll(s[i..j]) == FoldAll(s)[i..j]
  {
  }

  /** pandas' `str.contains(pattern, case=False)` for a pattern free of
      regular-expression metacharacters. */
  predicate ContainsIgnoreCase(s: string, pattern: string) {
    Contains(FoldAll(s), FoldAll(pattern))
  }

  /** pandas' `str.replace(pattern, replacement, case=False)`: every
      case-insensitive occurrence, scanning left to right without overlap,
      is replaced. */
  function ReplaceIgnoreCase(s: string, pattern: string, replacement: string): (r: string)
    requires |pattern| > 0
    decreases |s|
  {
    if |s| < |pattern| then s
    else if FoldAll(s[..|pattern|]) == FoldAll(pattern) then
      replacement + ReplaceIgnoreCase(s[|pattern|..], pattern, replacement)
    else
      [s[0]] + ReplaceIgnoreCase(s[1..], pattern, replacement)
  }

  /** A replacement of the pattern's own length and fold leaves the folded
      text, hence every later case-insensitive match, unchanged. */
  lemma {:induction false} ReplaceIgnoreCaseKeepsFold(s: string, pattern: string, replacement: string)
    requires |pattern| > 0
    requires FoldAll(replacement) == FoldAll(pattern)
    ensures FoldAll(ReplaceIgnoreCase(s, pattern, replacement)) == FoldAll(s)
    decreases |s|
  {
    if |s| < |pattern| {
    } else if FoldAll(s[..|pattern|]) == FoldAll(pattern) {
      ReplaceIgnoreCaseKeepsFold(s[|pattern|..], pattern, replacement);
      FoldAllAppend(replacement, ReplaceIgnoreCase(s[|pattern|..], pattern, replacement));
      FoldAllAppend(s[..|pattern|], s[|pattern|..]);
      assert s == s[..|pattern|] + s[|pattern|..];
    } else {
      ReplaceIgnoreCaseKeepsFold(s[1..], pattern, replacement);
      FoldAllAppend([s[0]], ReplaceIgnoreCase(s[1..], pattern, replacement));
      FoldAllAppend([s[0]], s[1..]);
      assert s == [s[0]] + s[1..];
    }
  }

  /** Replacing a second time changes nothing. */
  lemma {:induction false} ReplaceIgnoreCaseIdempotent(s: string, pattern: string, replacement: string)
    requires |pattern| > 0
    requires FoldAll(replacement) == FoldAll(pattern)
    ensures var t := ReplaceIgnoreCase(s, pattern, replacement);
            ReplaceIgnoreCase(t, pattern, replacement) == t
    decreases |s|
  {
    var t := ReplaceIgnoreCase(s, pattern, replacement);
    if |s| < |pattern| {
    } else if FoldAll(s[..|pattern|]) == FoldAll(pattern) {
      var x := ReplaceIgnoreCase(s[|pattern|..], pattern, replacement);
      ReplaceIgnoreCaseIdempotent(s[|pattern|..], pattern, replacement);
      assert t == replacement + x;
      assert t[..|pattern|] == replacement;
      assert t[|pattern|..] == x;
    } else {
      var x := ReplaceIgnoreCase(s[1..], pattern, replacement);
      ReplaceIgnoreCaseIdempotent(s[1..], pattern, replacement);
      ReplaceIgnoreCaseKeepsFold(s[1..], pattern, replacement);
      ReplaceIgnoreCaseKeepsFold(s, pattern, replacement);
      assert t == [s[0]] + x;
      assert |t| == |s|;
      FoldAllSlice(t, 0, |pattern|);
      FoldAllSlice(s, 0, |pattern|);
      assert t[1..] == x;
    }
  }

  /** Scanning passes over a prefix none of whose characters can begin a match. */
  lemma {:induction false} ReplaceIgnoreCasePassesOver(a: string, b: string, pattern: string, replacement: string)
    requires |pattern| > 0
    requires forall k :: 0 <= k < |a| ==> Fold(a[k]) != Fold(pattern[0])
    ensures ReplaceIgnoreCase(a + b, pattern, replacement)
            == a + ReplaceIgnoreCase(b, pattern, replacement)
    decreases |a|
  {
    if |a| == 0 {
      assert a + b == b;
    } else {
      var s := a + b;
      if |s| < |pattern| {
        assert ReplaceIgnoreCase(b, pattern, replacement) == b;
      } else {
        assert FoldAll(s[..|pattern|])[0] == Fold(a[0]);
        ReplaceIgnoreCasePassesOver(a[1..], b, pattern, replacement);
        assert s[1..] == a[1..] + b;
        assert a == [a[0]] + a[1..];
      }
    }
  }

  lemma ReplaceIgnoreCaseLength(s: string, pattern: string, replacement: string)
    requires |pattern| > 0
    requires FoldAll(replacement) == FoldAll(pattern)
    ensures |ReplaceIgnoreCase(s, pattern, replacement)| == |s|
  {
    ReplaceIgnoreCaseKeepsFold(s, pattern, replacement);
  }

  /** Two case-insensitive replacements that cannot overlap: when the first
      has nothing left to change, replacing the second pattern does not give
      it anything to change either. */
  lemma {:induction false} ReplaceIgnoreCaseUndisturbed(t: string, p1: string, r1: string, p2: string, r2: string)
    requires |p1| > 0 && |p2| > 0
    requires FoldAll(r1) == FoldAll(p1) && FoldAll(r2) == FoldAll(p2)
    requires forall k :: 0 <= k < |p2| ==> Fold(p2[k]) != Fold(p1[0])
    requires forall k :: 0 <= k < |r1| ==> Fold(r1[k]) != Fold(p2[0])
    requires ReplaceIgnoreCase(t, p1, r1) == t
    ensures ReplaceIgnoreCase(ReplaceIgnoreCase(t, p2, r2), p1, r1) == ReplaceIgnoreCase(t, p2, r2)
    decreases |t|
  {
    var x := ReplaceIgnoreCase(t, p2, r2);
    ReplaceIgnoreCaseLength(t, p2, r2);
    assert |r1| == |p1| && |r2| == |p2| by {
      assert |FoldAll(r1)| == |FoldAll(p1)| && |FoldAll(r2)| == |FoldAll(p2)|;
    }
    if |t| < |p1| {
    } else if FoldAll(t[..|p1|]) == FoldAll(p1) {
      UndisturbedAtMatch(t, p1, r1, p2, r2);
    } else {
      UndisturbedElsewhere(t, p1, r1, p2, r2);
    }
  }

  lemma UndisturbedAtMatch(t: string, p1: string, r1: string, p2: string, r2: string)
    requires |p1| > 0 && |p2| > 0
    requires FoldAll(r1) == FoldAll(p1) && FoldAll(r2) == FoldAll(p2)
    requires |r1| == |p1| && |r2| == |p2|
    requires forall k :: 0 <= k < |p2| ==> Fold(p2[k]) != Fold(p1[0])
    requires forall k :: 0 <= k < |r1| ==> Fold(r1[k]) != Fold(p2[0])
    requires ReplaceIgnoreCase(t, p1, r1) == t
    requires |t| >= |p1| && FoldAll(t[..|p1|]) == FoldAll(p1)
    ensures ReplaceIgnoreCase(ReplaceIgnoreCase(t, p2, r2), p1, r1) == ReplaceIgnoreCase(t, p2, r2)
    decreases |t|, 0
  {
    var rest := t[|p1|..];
    assert t == r1 + ReplaceIgnoreCase(rest, p1, r1);
    assert t[..|p1|] == r1;
    assert ReplaceIgnoreCase(rest, p1, r1) == rest;
    assert t == r1 + rest;
    ReplaceIgnoreCasePassesOver(r1, rest, p2, r2);
    var xr := ReplaceIgnoreCase(rest, p2, r2);
    ReplaceIgnoreCaseUndisturbed(rest, p1, r1, p2, r2);
    assert (r1 + xr)[..|p1|] == r1;
    assert (r1 + xr)[|p1|..] == xr;
  }

  lemma UndisturbedElsewhere(t: string, p1: string, r1: string, p2: string, r2: string)
    requires |p1| > 0 && |p2| > 0
    requires FoldAll(r1) == FoldAll(p1) && FoldAll(r2) == FoldAll(p2)
    requires |r1| == |p1| && |r2| == |p2|
    requires forall k :: 0 <= k < |p2| ==> Fold(p2[k]) != Fold(p1[0])
    requires forall k :: 0 <= k < |r1| ==> Fold(r1[k]) != Fold(p2[0])
    requires ReplaceIgnoreCase(t, p1, r1) == t
    requires |t| >= |p1| && FoldAll(t[..|p1|]) != FoldAll(p1)
    ensures ReplaceIgnoreCase(ReplaceIgnoreCase(t, p2, r2), p1, r1) == ReplaceIgnoreCase(t, p2, r2)
    decreases |t|, 1
  {
    if |t| < |p2| {
      assert ReplaceIgnoreCase(t, p2, r2) == t;
    } else if FoldAll(t[..|p2|]) == FoldAll(p2) {
      ElsewhereAtMatch(t, p1, r1, p2, r2);
    } else {
      ElsewhereSkip(t, p1, r1, p2, r2);
    }
  }

  /** The text opens with the second pattern: it is replaced, and neither
      the replacement nor the scan after it gives the first pattern a
      match. */
  lemma ElsewhereAtMatch(t: string, p1: string, r1: string, p2: string, r2: string)
    requires |p1| > 0 && |p2| > 0
    requires FoldAll(r1) == FoldAll(p1) && FoldAll(r2) == FoldAll(p2)
    requires |r1| == |p1| && |r2| == |p2|
    requires forall k :: 0 <= k < |p2| ==> Fold(p2[k]) != Fold(p1[0])
    requires forall k :: 0 <= k < |r1| ==> Fold(r1[k]) != Fold(p2[0])
    requires ReplaceIgnoreCase(t, p1, r1) == t
    requires |t| >= |p1| && FoldAll(t[..|p1|]) != FoldAll(p1)
    requires |t| >= |p2| && FoldAll(t[..|p2|]) == FoldAll(p2)
    ensures ReplaceIgnoreCase(ReplaceIgnoreCase(t, p2, r2), p1, r1) == ReplaceIgnoreCase(t, p2, r2)
    decreases |t|, 0
  {
    hide *;
    var head := t[..|p2|];
    var rest := t[|p2|..];
    SplitAt(t, head, rest);
    assert forall k :: 0 <= k < |head| ==> Fold(head[k]) == Fold(p2[k]) by {
      forall k | 0 <= k < |head| ensures Fold(head[k]) == Fold(p2[k]) {
        assert FoldAll(head)[k] == FoldAll(p2)[k];
      }
    }
    ReplaceIgnoreCasePassesOver(head, rest, p1, r1);
    AppendCancel(head, ReplaceIgnoreCase(rest, p1, r1), rest);
    ReplaceIgnoreCaseUndisturbed(rest, p1, r1, p2, r2);
    var xr := ReplaceIgnoreCase(rest, p2, r2);
    assert forall k :: 0 <= k < |r2| ==> Fold(r2[k]) != Fold(p1[0]) by {
      forall k | 0 <= k < |r2| ensures Fold(r2[k]) != Fold(p1[0]) {
        assert FoldAll(r2)[k] == FoldAll(p2)[k];
      }
    }
    ReplaceIgnoreCasePassesOver(r2, xr, p1, r1);
    ReplaceAtMatch(t, p2, r2);
  }

  /** At an occurrence the replacement is written and the scan resumes
      after it. */
  lemma ReplaceAtMatch(s: string, pattern: string, replacement: string)
    requires |pattern| > 0
    requires |s| >= |pattern| && FoldAll(s[..|pattern|]) == FoldAll(pattern)
    ensures ReplaceIgnoreCase(s, pattern, replacement) == replacement + ReplaceIgnoreCase(s[|pattern|..], pattern, replacement)
  {
  }

  /** The text opens with neither pattern: its first character stays and
      the rest is the same question one character shorter. */
  lemma ElsewhereSkip(t: string, p1: string, r1: string, p2: string, r2: string)
    requires |p1| > 0 && |p2| > 0
    requires FoldAll(r1) == FoldAll(p1) && FoldAll(r2) == FoldAll(p2)
    requires |r1| == |p1| && |r2| == |p2|
    requires forall k :: 0 <= k < |p2| ==> Fold(p2[k]) != Fold(p1[0])
    requires forall k :: 0 <= k < |r1| ==> Fold(r1[k]) != Fold(p2[0])
    requires ReplaceIgnoreCase(t, p1, r1) == t
    requires |t| >= |p1| && FoldAll(t[..|p1|]) != FoldAll(p1)
    requires |t| >= |p2| && FoldAll(t[..|p2|]) != FoldAll(p2)
    ensures ReplaceIgnoreCase(ReplaceIgnoreCase(t, p2, r2), p1, r1) == ReplaceIgnoreCase(t, p2, r2)
    decreases |t|, 0
  {
    assert t == [t[0]] + ReplaceIgnoreCase(t[1..], p1, r1);
    assert ReplaceIgnoreCase(t[1..], p1, r1) == t[1..];
    var x := ReplaceIgnoreCase(t, p2, r2);
    var x1 := ReplaceIgnoreCase(t[1..], p2, r2);
    assert x == [t[0]] + x1;
    ReplaceIgnoreCaseKeepsFold(t, p2, r2);
    ReplaceIgnoreCaseLength(t, p2, r2);
    FoldAllSlice(x, 0, |p1|);
    FoldAllSlice(t, 0, |p1|);
    assert FoldAll(x[..|p1|]) != FoldAll(p1);
    ReplaceIgnoreCaseUndisturbed(t[1..], p1, r1, p2, r2);
    assert x[1..] == x1;
  }

  /** No proper suffix of the pattern folds to a prefix of it, so two
      case-insensitive occurrences can never overlap. */
  predicate NoSelfOverlap(pattern: string) {
    forall i :: 0 < i < |pattern| ==> FoldAll(pattern)[i..] != FoldAll(pattern)[..|pattern| - i]
  }

  /** A window starting inside a replaced occurrence and reaching past it
      cannot be an occurrence itself. */
  lemma WindowStraddles(s: string, pattern: string, replacement: string, i: nat)
    requires FoldAll(replacement) == FoldAll(pattern) && NoSelfOverlap(pattern)
    requires |s| >= |pattern| && s[..|pattern|] == replacement
    requires i + |pattern| <= |s|
    ensures 0 < i < |pattern| ==> FoldAll(s[i..i + |pattern|]) != FoldAll(pattern)
  {
    if 0 < i < |pattern| {
      var n := |pattern|;
      FoldAllSlice(s, i, n);
      FoldAllSlice(s, 0, n);
      FoldAllSlice(s, i, i + n);
      assert FoldAll(s[i..n]) == FoldAll(pattern)[i..];
      assert FoldAll(s[i..i + n])[..n - i] == FoldAll(s[i..n]);
    }
  }

  /** When replacing changes nothing, every case-insensitive occurrence of a
      pattern that cannot overlap itself is already the replacement. */
  lemma {:induction false} StableMeansReplaced(s: string, pattern: string, replacement: string, i: nat)
    requires |pattern| > 0
    requires FoldAll(replacement) == FoldAll(pattern) && NoSelfOverlap(pattern)
    requires ReplaceIgnoreCase(s, pattern, replacement) == s
    requires i + |pattern| <= |s| && FoldAll(s[i..i + |pattern|]) == FoldAll(pattern)
    ensures s[i..i + |pattern|] == replacement
    decreases |s|, 1
  {
    if FoldAll(s[..|pattern|]) == FoldAll(pattern) {
      StableAtMatch(s, pattern, replacement, i);
    } else {
      StableElsewhere(s, pattern, replacement, i);
    }
  }

  lemma StableAtMatch(s: string, pattern: string, replacement: string, i: nat)
    requires |pattern| > 0
    requires FoldAll(replacement) == FoldAll(pattern) && NoSelfOverlap(pattern)
    requires ReplaceIgnoreCase(s, pattern, replacement) == s
    requires i + |pattern| <= |s| && FoldAll(s[i..i + |pattern|]) == FoldAll(pattern)
    requires FoldAll(s[..|pattern|]) == FoldAll(pattern)
    ensures s[i..i + |pattern|] == replacement
    decreases |s|, 0
  {
    hide *;
    var n := |pattern|;
    StableHead(s, pattern, replacement);
    var rest := s[n..];
    WindowStraddles(s, pattern, replacement, i);
    if i >= n {
      DropSlice(s, n, i, i + n);
      StableMeansReplaced(rest, pattern, replacement, i - n);
    }
  }

  /** Text that replacing leaves unchanged and that opens with an
      occurrence opens with the replacement, and replacing leaves the rest
      unchanged too. */
  lemma StableHead(s: string, pattern: string, replacement: string)
    requires |pattern| > 0
    requires FoldAll(replacement) == FoldAll(pattern)
    requires ReplaceIgnoreCase(s, pattern, replacement) == s
    requires |pattern| <= |s| && FoldAll(s[..|pattern|]) == FoldAll(pattern)
    ensures |replacement| == |pattern|
    ensures s[..|pattern|] == replacement
    ensures ReplaceIgnoreCase(s[|pattern|..], pattern, replacement) == s[|pattern|..]
  {
    assert |replacement| == |pattern| by {
      assert |FoldAll(replacement)| == |FoldAll(pattern)|;
    }
    var tail := ReplaceIgnoreCase(s[|pattern|..], pattern, replacement);
    assert s == replacement + tail;
    SplitAt(s, replacement, tail);
  }

  lemma StableElsewhere(s: string, pattern: string, replacement: string, i: nat)
    requires |pattern| > 0
    requires FoldAll(replacement) == FoldAll(pattern) && NoSelfOverlap(pattern)
    requires ReplaceIgnoreCase(s, pattern, replacement) == s
    requires i + |pattern| <= |s| && FoldAll(s[i..i + |pattern|]) == FoldAll(pattern)
    requires FoldAll(s[..|pattern|]) != FoldAll(pattern)
    ensures s[i..i + |pattern|] == replacement
    decreases |s|, 0
  {
    var n := |pattern|;
    assert i > 0 by {
      assert s[..n] == s[0..n];
    }
    assert s == [s[0]] + ReplaceIgnoreCase(s[1..], pattern, replacement);
    assert ReplaceIgnoreCase(s[1..], pattern, replacement) == s[1..];
    assert s[1..][i - 1..i - 1 + n] == s[i..i + n];
    StableMeansReplaced(s[1..], pattern, replacement, i - 1);
  }
}
