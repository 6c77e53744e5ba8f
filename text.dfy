/**
 * The JavaScript string operations the registration site relies on: the regular-expression
 * class `\s`, `replace(/\s+/g, rep)`, `replace(/literal/g, rep)`, `Array.prototype.join` and the
 * decimal rendering of a number inside a template literal, with `split` as the reference
 * definition that literal replacement is proved against.
 */
module Text {

  // ---------------------------------------------------------------------------------------------
  // Whitespace
  // ---------------------------------------------------------------------------------------------

  /** The characters matched by the JavaScript class `\s` (ECMAScript WhiteSpace and LineTerminator). */
  predicate IsWhitespace(c: char) {
    || c == '\t' || c == '\n' || c == '\U{000B}' || c == '\U{000C}' || c == '\r' || c == ' '
    || c == '\U{00A0}' || c == '\U{1680}' || ('\U{2000}' <= c <= '\U{200A}')
    || c == '\U{2028}' || c == '\U{2029}' || c == '\U{202F}' || c == '\U{205F}'
    || c == '\U{3000}' || c == '\U{FEFF}'
  }

  predicate NoWhitespace(s: string) {
    forall i :: 0 <= i < |s| ==> !IsWhitespace(s[i])
  }

  predicate AllWhitespace(s: string) {
    forall i :: 0 <= i < |s| ==> IsWhitespace(s[i])
  }

  /** What is left of `s` once the whitespace run at its head (possibly empty) is consumed. */
  function SkipWhitespace(s: string): (r: string)
    ensures |r| <= |s| && r == s[|s| - |r|..]
    ensures r == [] || !IsWhitespace(r[0])
    ensures s != [] && IsWhitespace(s[0]) ==> |r| < |s|
    ensures s != [] && !IsWhitespace(s[|s| - 1]) ==> r != [] && r[|r| - 1] == s[|s| - 1]
  {
    if s != [] && IsWhitespace(s[0]) then SkipWhitespace(s[1..]) else s
  }

  /** `s.replace(/\s+/g, rep)`: every maximal run of whitespace becomes one copy of `rep`. */
  function ReplaceWhitespaceRuns(s: string, rep: string): string
    decreases |s|
  {
    if s == [] then []
    else if IsWhitespace(s[0]) then rep + ReplaceWhitespaceRuns(SkipWhitespace(s), rep)
    else [s[0]] + ReplaceWhitespaceRuns(s[1..], rep)
  }

  /** Reference definition: `s` with every whitespace character taken out, the rest kept in order. */
  function RemoveWhitespace(s: string): (r: string)
    ensures NoWhitespace(r) && |r| <= |s|
  {
    if s == [] then []
    else (if IsWhitespace(s[0]) then [] else [s[0]]) + RemoveWhitespace(s[1..])
  }

  lemma {:induction false} RemoveWhitespaceSkipsRun(s: string)
    ensures RemoveWhitespace(SkipWhitespace(s)) == RemoveWhitespace(s)
  {
    if s != [] && IsWhitespace(s[0]) {
      RemoveWhitespaceSkipsRun(s[1..]);
    }
  }

  /** Replacing every whitespace run by the empty string removes exactly the whitespace. */
  lemma {:induction false} ReplaceRunsByNothingRemovesWhitespace(s: string)
    ensures ReplaceWhitespaceRuns(s, "") == RemoveWhitespace(s)
    decreases |s|
  {
    if s == [] {
    } else if IsWhitespace(s[0]) {
      ReplaceRunsByNothingRemovesWhitespace(SkipWhitespace(s));
      RemoveWhitespaceSkipsRun(s);
    } else {
      ReplaceRunsByNothingRemovesWhitespace(s[1..]);
    }
  }

  /** With a whitespace-free replacement, no whitespace survives the rewriting. */
  lemma {:induction false} ReplaceRunsLeavesNoWhitespace(s: string, rep: string)
    requires NoWhitespace(rep)
    ensures NoWhitespace(ReplaceWhitespaceRuns(s, rep))
    decreases |s|
  {
    if s == [] {
    } else if IsWhitespace(s[0]) {
      ReplaceRunsLeavesNoWhitespace(SkipWhitespace(s), rep);
    } else {
      ReplaceRunsLeavesNoWhitespace(s[1..], rep);
    }
  }

  /** A string without whitespace is left as it is. */
  lemma {:induction false} ReplaceRunsFixesWhitespaceFree(s: string, rep: string)
    requires NoWhitespace(s)
    ensures ReplaceWhitespaceRuns(s, rep) == s
  {
    if s != [] {
      assert !IsWhitespace(s[0]);
      ReplaceRunsFixesWhitespaceFree(s[1..], rep);
    }
  }

  /** Rewriting twice with a whitespace-free replacement is the same as rewriting once. */
  lemma ReplaceRunsIdempotent(s: string, rep: string)
    requires NoWhitespace(rep)
    ensures ReplaceWhitespaceRuns(ReplaceWhitespaceRuns(s, rep), rep) == ReplaceWhitespaceRuns(s, rep)
  {
    ReplaceRunsLeavesNoWhitespace(s, rep);
    ReplaceRunsFixesWhitespaceFree(ReplaceWhitespaceRuns(s, rep), rep);
  }

  /** A single non-empty run of whitespace, however long, becomes exactly one `rep`. */
  lemma ReplaceRunsOfOneRun(w: string, rep: string)
    requires w != [] && AllWhitespace(w)
    ensures ReplaceWhitespaceRuns(w, rep) == rep
  {
  }

  lemma {:induction false} SkipWhitespaceRun(w: string, b: string)
    requires AllWhitespace(w) && (b == [] || !IsWhitespace(b[0]))
    ensures SkipWhitespace(w + b) == b
  {
    if w == [] {
      assert w + b == b;
    } else {
      assert (w + b)[0] == w[0] && (w + b)[1..] == w[1..] + b;
      SkipWhitespaceRun(w[1..], b);
    }
  }

  /** A non-empty whitespace run at the head, up to the next non-whitespace character, becomes one `rep`. */
  lemma ReplaceRunsAfterRun(w: string, b: string, rep: string)
    requires w != [] && AllWhitespace(w) && (b == [] || !IsWhitespace(b[0]))
    ensures ReplaceWhitespaceRuns(w + b, rep) == rep + ReplaceWhitespaceRuns(b, rep)
  {
    assert (w + b)[0] == w[0];
    SkipWhitespaceRun(w, b);
  }

  /** Two whitespace-free words around one run: the run becomes one `rep`. */
  lemma ReplaceRunsBetweenWords(a: string, w: string, b: string, rep: string)
    requires NoWhitespace(a) && NoWhitespace(b) && b != []
    requires w != [] && AllWhitespace(w)
    ensures ReplaceWhitespaceRuns(a + w + b, rep) == a + rep + b
  {
    assert a + w + b == a + (w + b);
    assert a == [] || !IsWhitespace(a[|a| - 1]);
    ReplaceRunsSplitsAfterWordChar(a, w + b, rep);
    ReplaceRunsFixesWhitespaceFree(a, rep);
    assert !IsWhitespace(b[0]);
    ReplaceRunsAfterRun(w, b, rep);
    ReplaceRunsFixesWhitespaceFree(b, rep);
  }

  lemma {:induction false} SkipWhitespaceConcat(a: string, b: string)
    requires a != [] && !IsWhitespace(a[|a| - 1])
    ensures SkipWhitespace(a + b) == SkipWhitespace(a) + b
    decreases |a|
  {
    if IsWhitespace(a[0]) {
      assert (a + b)[1..] == a[1..] + b;
      SkipWhitespaceConcat(a[1..], b);
    }
  }

  /**
   * A run cannot straddle a boundary that follows a non-whitespace character, so the rewriting
   * works piece by piece there. Together with ReplaceRunsOfOneRun and ReplaceRunsFixesWhitespaceFree
   * this says that each maximal whitespace run, and nothing else, becomes one copy of `rep`.
   */
  lemma {:induction false} ReplaceRunsSplitsAfterWordChar(a: string, b: string, rep: string)
    requires a == [] || !IsWhitespace(a[|a| - 1])
    ensures ReplaceWhitespaceRuns(a + b, rep)
         == ReplaceWhitespaceRuns(a, rep) + ReplaceWhitespaceRuns(b, rep)
    decreases |a|, 1
  {
    if a == [] {
      assert a + b == b;
    } else if IsWhitespace(a[0]) {
      ReplaceRunsSplitsAfterLeadingRun(a, b, rep);
    } else {
      ReplaceRunsSplitsAfterWordHead(a, b, rep);
    }
  }

  lemma {:induction false} ReplaceRunsSplitsAfterWordHead(a: string, b: string, rep: string)
    requires a != [] && !IsWhitespace(a[0]) && !IsWhitespace(a[|a| - 1])
    ensures ReplaceWhitespaceRuns(a + b, rep)
         == ReplaceWhitespaceRuns(a, rep) + ReplaceWhitespaceRuns(b, rep)
    decreases |a|, 0
  {
    var ab := a + b;
    assert ab[0] == a[0] && ab[1..] == a[1..] + b;
    ReplaceRunsSplitsAfterWordChar(a[1..], b, rep);
    var x, y := ReplaceWhitespaceRuns(a[1..], rep), ReplaceWhitespaceRuns(b, rep);
    assert ReplaceWhitespaceRuns(ab, rep) == [a[0]] + (x + y);
    assert [a[0]] + (x + y) == ([a[0]] + x) + y;
  }

  lemma {:induction false} ReplaceRunsSplitsAfterLeadingRun(a: string, b: string, rep: string)
    requires a != [] && IsWhitespace(a[0]) && !IsWhitespace(a[|a| - 1])
    ensures ReplaceWhitespaceRuns(a + b, rep)
         == ReplaceWhitespaceRuns(a, rep) + ReplaceWhitespaceRuns(b, rep)
    decreases |a|, 0
  {
    var ab := a + b;
    assert ab[0] == a[0];
    SkipWhitespaceConcat(a, b);
    var r := SkipWhitespace(a);
    ReplaceRunsSplitsAfterWordChar(r, b, rep);
    var x, y := ReplaceWhitespaceRuns(r, rep), ReplaceWhitespaceRuns(b, rep);
    assert ReplaceWhitespaceRuns(ab, rep) == rep + (x + y);
    assert rep + (x + y) == (rep + x) + y;
  }

  // ---------------------------------------------------------------------------------------------
  // Literal replace-all, split and join
  // ---------------------------------------------------------------------------------------------

  /** `pat` occurs in `s` starting at index `i`. */
  predicate OccursAt(s: string, pat: string, i: int) {
    0 <= i && i + |pat| <= |s| && s[i..i + |pat|] == pat
  }

  /**
   * `s.replace(/pat/g, rep)` for a pattern of literal characters: the occurrences of `pat` found
   * scanning left to right, without overlap, are each replaced by `rep`; the inserted text is not
   * scanned again.
   */
  function ReplaceAll(s: string, pat: string, rep: string): string
    requires pat != []
    decreases |s|
  {
    if |s| < |pat| then s
    else if s[..|pat|] == pat then rep + ReplaceAll(s[|pat|..], pat, rep)
    else [s[0]] + ReplaceAll(s[1..], pat, rep)
  }

  /**
   * `s.split(pat)`: the pieces between the same occurrences that ReplaceAll finds. The pages do
   * not split; this is the reference definition ReplaceAll is proved against.
   */
  function Split(s: string, pat: string): (pieces: seq<string>)
    requires pat != []
    ensures |pieces| >= 1
    decreases |s|
  {
    if |s| < |pat| then [s]
    else if s[..|pat|] == pat then [""] + Split(s[|pat|..], pat)
    else
      var rest := Split(s[1..], pat);
      [[s[0]] + rest[0]] + rest[1..]
  }

  /** `parts.join(sep)`. */
  function Join(parts: seq<string>, sep: string): string
  {
    if parts == [] then []
    else if |parts| == 1 then parts[0]
    else parts[0] + sep + Join(parts[1..], sep)
  }

  /** Joining one more part appends the separator and that part. */
  lemma {:induction false} JoinAppend(parts: seq<string>, last: string, sep: string)
    requires parts != []
    ensures Join(parts + [last], sep) == Join(parts, sep) + sep + last
  {
    if |parts| == 1 {
      assert (parts + [last])[1..] == [last];
    } else {
      assert (parts + [last])[1..] == parts[1..] + [last];
      JoinAppend(parts[1..], last, sep);
    }
  }

  lemma JoinPrepend(c: string, parts: seq<string>, sep: string)
    requires parts != []
    ensures Join([c + parts[0]] + parts[1..], sep) == c + Join(parts, sep)
  {
    if |parts| > 1 {
      assert ([c + parts[0]] + parts[1..])[1..] == parts[1..];
    }
  }

  /** Replace-all agrees with its split-and-join reading: `s.split(pat).join(rep)`. */
  lemma {:induction false} ReplaceAllIsSplitJoin(s: string, pat: string, rep: string)
    requires pat != []
    ensures ReplaceAll(s, pat, rep) == Join(Split(s, pat), rep)
    decreases |s|
  {
    if |s| < |pat| {
    } else if s[..|pat|] == pat {
      ReplaceAllIsSplitJoin(s[|pat|..], pat, rep);
      var rest := Split(s[|pat|..], pat);
      assert ([""] + rest)[1..] == rest;
    } else {
      ReplaceAllIsSplitJoin(s[1..], pat, rep);
      JoinPrepend([s[0]], Split(s[1..], pat), rep);
    }
  }

  /** Where `pat` does not occur, replace-all changes nothing. */
  lemma {:induction false} ReplaceAllWithoutOccurrence(s: string, pat: string, rep: string)
    requires pat != []
    requires forall i :: !OccursAt(s, pat, i)
    ensures ReplaceAll(s, pat, rep) == s
    decreases |s|
  {
    if |s| >= |pat| {
      assert !OccursAt(s, pat, 0);
      forall i ensures !OccursAt(s[1..], pat, i) {
        if 0 <= i && i + |pat| <= |s| - 1 {
          assert s[1..][i..i + |pat|] == s[i + 1..i + 1 + |pat|];
          assert !OccursAt(s, pat, i + 1);
        }
      }
      ReplaceAllWithoutOccurrence(s[1..], pat, rep);
    }
  }

  // ---------------------------------------------------------------------------------------------
  // Decimal numerals
  // ---------------------------------------------------------------------------------------------

  predicate IsDigit(c: char) {
    '0' <= c <= '9'
  }

  predicate AllDigits(s: string) {
    forall i :: 0 <= i < |s| ==> IsDigit(s[i])
  }

  function DigitChar(d: nat): (c: char)
    requires d < 10
    ensures IsDigit(c) && c as int - '0' as int == d
  {
    "0123456789"[d]
  }

  /** The numeral JavaScript writes for a non-negative integer in a template literal (`${n}`). */
  function NatToString(n: nat): (r: string)
    ensures r != [] && AllDigits(r)
  {
    if n < 10 then [DigitChar(n)] else NatToString(n / 10) + [DigitChar(n % 10)]
  }

  /** The value a string of decimal digits denotes. */
  function DecimalValue(s: string): nat
    requires AllDigits(s)
  {
    if s == [] then 0 else DecimalValue(s[..|s| - 1]) * 10 + (s[|s| - 1] as int - '0' as int)
  }

  /** Reading a numeral back gives the number it was written from. */
  lemma {:induction false} DecimalValueOfNatToString(n: nat)
    ensures DecimalValue(NatToString(n)) == n
  {
    if n >= 10 {
      DecimalValueOfNatToString(n / 10);
      var s := NatToString(n);
      assert s[..|s| - 1] == NatToString(n / 10);
    }
  }

  /** Different numbers are written as different numerals. */
  lemma NatToStringInjective(a: nat, b: nat)
    requires NatToString(a) == NatToString(b)
    ensures a == b
  {
    DecimalValueOfNatToString(a);
    DecimalValueOfNatToString(b);
  }

  /** The index of the first `_` in `s`, or `|s|` when there is none. */
  function UnderscoreIndex(s: string): (k: nat)
    ensures k <= |s|
  {
    if s == [] || s[0] == '_' then 0 else 1 + UnderscoreIndex(s[1..])
  }

  lemma {:induction false} UnderscoreAfterDigits(x: string, y: string)
    requires AllDigits(x)
    ensures UnderscoreIndex(x + "_" + y) == |x|
  {
    if x != [] {
      assert (x + "_" + y)[1..] == x[1..] + "_" + y;
      UnderscoreAfterDigits(x[1..], y);
    }
  }

  /** A run of digits followed by `_` can be taken apart again: the digits end at the first `_`. */
  lemma DigitsThenUnderscore(x: string, y: string, x': string, y': string)
    requires AllDigits(x) && AllDigits(x')
    requires x + "_" + y == x' + "_" + y'
    ensures x == x' && y == y'
  {
    UnderscoreAfterDigits(x, y);
    UnderscoreAfterDigits(x', y');
    var s := x + "_" + y;
    assert x == s[..|x|] == x';
    assert y == s[|x| + 1..] == y';
  }
}
