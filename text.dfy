/**
  The few Python string operations the analysis pipeline relies on:
  `str.isspace`, `str.strip` (with and without an explicit character set),
  `str.lower`, `str.startswith`, `in` on strings, `str.splitlines` and
  `str.split(":")[0]`. Letters, digits and word characters are ASCII only;
  whitespace and line boundaries follow Python's full definitions.
*/
module Text {

  /** Python's `str.isspace` for a single character. */
  predicate IsSpace(c: char) {
    || ('\U{9}' <= c <= '\U{D}')
    || ('\U{1C}' <= c <= '\U{20}')
    || c == '\U{85}' || c == '\U{A0}' || c == '\U{1680}'
    || ('\U{2000}' <= c <= '\U{200A}')
    || c == '\U{2028}' || c == '\U{2029}' || c == '\U{202F}'
    || c == '\U{205F}' || c == '\U{3000}'
  }

  /** The characters at which Python's `str.splitlines` breaks a line. */
  predicate IsLineBreak(c: char) {
    || c == '\n' || c == '\r' || c == '\U{B}' || c == '\U{C}'
    || c == '\U{1C}' || c == '\U{1D}' || c == '\U{1E}'
    || c == '\U{85}' || c == '\U{2028}' || c == '\U{2029}'
  }

  predicate IsDigit(c: char) { '0' <= c <= '9' }

  predicate IsAlnum(c: char) { 'a' <= c <= 'z' || 'A' <= c <= 'Z' || IsDigit(c) }

  /** A character of the regular-expression class `\w`. */
  predicate IsWordChar(c: char) { IsAlnum(c) || c == '_' }

  predicate IsUnderscore(c: char) { c == '_' }

  function LowerChar(c: char): (r: char)
    ensures IsDigit(r) <==> IsDigit(c)
    ensures IsAlnum(r) <==> IsAlnum(c)
    ensures IsSpace(r) <==> IsSpace(c)
    ensures !('A' <= r <= 'Z')
  {
    if 'A' <= c <= 'Z' then (c as int + 32) as char else c
  }

  /** Python's `str.lower`, on ASCII letters. */
  function Lower(s: string): (r: string)
    ensures |r| == |s|
    ensures forall i :: 0 <= i < |s| ==> r[i] == LowerChar(s[i])
  {
    seq(|s|, i requires 0 <= i < |s| => LowerChar(s[i]))
  }

  lemma LowerConcat(a: string, b: string)
    ensures Lower(a + b) == Lower(a) + Lower(b)
  {
  }

  predicate StartsWith(s: string, prefix: string) {
    |prefix| <= |s| && s[..|prefix|] == prefix
  }

  /** Lower-casing keeps a prefix a prefix. */
  lemma LowerPrefix(s: string, w: string)
    requires StartsWith(s, w)
    ensures StartsWith(Lower(s), Lower(w))
  {
    assert Lower(s)[..|w|] == Lower(w);
  }

  /** Python's `sub in s`. */
  predicate Contains(s: string, sub: string)
    decreases |s|
  {
    StartsWith(s, sub) || (|s| > 0 && Contains(s[1..], sub))
  }

  /** Python's `s[:n]`. */
  function Take(s: string, n: nat): (r: string)
    ensures |r| == if n < |s| then n else |s|
    ensures r == s[..|r|]
  {
    if n < |s| then s[..n] else s
  }

  /** The number of leading characters of `s` satisfying `p`. */
  function LeadingRun(s: string, p: char -> bool): (n: nat)
    ensures n <= |s|
    ensures forall k :: 0 <= k < n ==> p(s[k])
    ensures n < |s| ==> !p(s[n])
    decreases |s|
  {
    if |s| > 0 && p(s[0]) then 1 + LeadingRun(s[1..], p) else 0
  }

  /** A run of `n` characters satisfying `p`, ended by one that does not or by the end, is the leading run. */
  lemma {:induction false} LeadingRunExact(s: string, p: char -> bool, n: nat)
    requires n <= |s| && forall k :: 0 <= k < n ==> p(s[k])
    requires n < |s| ==> !p(s[n])
    ensures LeadingRun(s, p) == n
    decreases n
  {
    if n > 0 {
      assert forall k :: 0 <= k < n - 1 ==> s[1..][k] == s[k + 1];
      LeadingRunExact(s[1..], p, n - 1);
    }
  }

  /** The number of trailing characters of `s` satisfying `p`. */
  function TrailingRun(s: string, p: char -> bool): (n: nat)
    ensures n <= |s|
    ensures forall k :: |s| - n <= k < |s| ==> p(s[k])
    ensures n < |s| ==> !p(s[|s| - 1 - n])
    decreases |s|
  {
    if |s| > 0 && p(s[|s| - 1]) then 1 + TrailingRun(s[..|s| - 1], p) else 0
  }

  /**
    The slice `s[a..b]` that Python's `strip` keeps when it removes the
    characters satisfying `p` from both ends: everything outside it satisfies
    `p`, and a non-empty slice starts and ends with a character that does not.
  */
  function StripSpan(s: string, p: char -> bool): (span: (nat, nat))
    ensures span.0 <= span.1 <= |s|
    ensures forall k :: 0 <= k < span.0 ==> p(s[k])
    ensures forall k :: span.1 <= k < |s| ==> p(s[k])
    ensures span.0 < span.1 ==> !p(s[span.0]) && !p(s[span.1 - 1])
    ensures span.0 == span.1 ==> span.0 == |s|
  {
    var a := LeadingRun(s, p);
    var n := TrailingRun(s[a..], p);
    (a, |s| - n)
  }

  /** Python's `s.strip(chars)`, with the stripped characters given by `p`. */
  function StripBy(s: string, p: char -> bool): (r: string)
    ensures |r| <= |s|
    ensures r != [] ==> !p(r[0]) && !p(r[|r| - 1])
    ensures r == [] <==> forall k :: 0 <= k < |s| ==> p(s[k])
  {
    var span := StripSpan(s, p);
    assert span.0 < span.1 ==> !p(s[span.0]);
    s[span.0..span.1]
  }

  /** Python's `s.strip()`. */
  function Strip(s: string): (r: string)
    ensures |r| <= |s|
    ensures r != [] ==> !IsSpace(r[0]) && !IsSpace(r[|r| - 1])
  {
    StripBy(s, IsSpace)
  }

  /** A string with nothing for `strip` to remove. */
  predicate Stripped(s: string) {
    s == [] || (!IsSpace(s[0]) && !IsSpace(s[|s| - 1]))
  }

  /** `strip` leaves a string alone when neither end is to be removed. */
  lemma StripByNothing(s: string, p: char -> bool)
    requires s != [] ==> !p(s[0]) && !p(s[|s| - 1])
    ensures StripBy(s, p) == s
  {
    if s != [] {
      assert LeadingRun(s, p) == 0;
      assert TrailingRun(s, p) == 0;
    }
  }

  /** Stripping twice is stripping once. */
  lemma StripIdempotent(s: string)
    ensures Strip(Strip(s)) == Strip(s)
  {
    StripByNothing(Strip(s), IsSpace);
  }

  /** A prefix none of whose characters is to be removed survives `strip`. */
  lemma StripByKeepsPrefix(s: string, w: string, p: char -> bool)
    requires StartsWith(s, w)
    requires forall k :: 0 <= k < |w| ==> !p(w[k])
    ensures StartsWith(StripBy(s, p), w)
  {
    var span := StripSpan(s, p);
    if w != [] {
      assert span.0 == 0 by { assert !p(s[0]); }
      assert span.1 >= |w| by {
        assert !p(s[|w| - 1]);
      }
      assert StripBy(s, p)[..|w|] == s[..|w|];
    }
  }

  /** `strip` removes only characters it is told to: the letters and digits all stay. */
  lemma StripByKeepsAlnums(s: string, p: char -> bool)
    requires forall c :: p(c) ==> !IsAlnum(c)
    ensures Alnums(StripBy(s, p)) == Alnums(s)
  {
    var span := StripSpan(s, p);
    assert s == s[..span.0] + s[span.0..span.1] + s[span.1..];
    AlnumsConcat(s[..span.0] + s[span.0..span.1], s[span.1..]);
    AlnumsConcat(s[..span.0], s[span.0..span.1]);
    AlnumsEmpty(s[..span.0]);
    AlnumsEmpty(s[span.1..]);
  }

  /** The letters and digits of a string, in order. */
  function Alnums(s: string): (r: string)
    ensures |r| <= |s|
    ensures forall k :: 0 <= k < |r| ==> IsAlnum(r[k])
    decreases |s|
  {
    if s == [] then []
    else (if IsAlnum(s[0]) then [s[0]] else []) + Alnums(s[1..])
  }

  lemma {:induction false} AlnumsConcat(a: string, b: string)
    ensures Alnums(a + b) == Alnums(a) + Alnums(b)
    decreases |a|
  {
    if a == [] {
      assert a + b == b;
    } else {
      assert (a + b)[1..] == a[1..] + b;
      AlnumsConcat(a[1..], b);
    }
  }

  lemma {:induction false} AlnumsEmpty(s: string)
    ensures Alnums(s) == [] <==> forall k :: 0 <= k < |s| ==> !IsAlnum(s[k])
    decreases |s|
  {
    if s != [] {
      AlnumsEmpty(s[1..]);
      assert forall k :: 1 <= k < |s| ==> s[k] == s[1..][k - 1];
    }
  }

  /** Python's `s.split(":")[0]`: the text before the first colon. */
  function BeforeColon(s: string): (r: string)
    ensures StartsWith(s, r)
    ensures forall k :: 0 <= k < |r| ==> r[k] != ':'
    ensures r == s || s[|r|] == ':'
  {
    var n := LeadingRun(s, c => c != ':');
    s[..n]
  }

  /** A prefix free of colons survives `split(":")[0]`. */
  lemma BeforeColonOfPrefix(w: string, rest: string)
    requires forall k :: 0 <= k < |w| ==> w[k] != ':'
    ensures StartsWith(BeforeColon(w + rest), w)
  {
    assert forall k :: 0 <= k < |w| ==> (w + rest)[k] == w[k];
  }

  lemma BeforeColonAtColon(w: string, rest: string)
    requires forall k :: 0 <= k < |w| ==> w[k] != ':'
    ensures BeforeColon(w + ":" + rest) == w
  {
    BeforeColonOfPrefix(w, ":" + rest);
    assert w + ":" + rest == w + (":" + rest);
    var r := BeforeColon(w + ":" + rest);
    assert (w + ":" + rest)[|w|] == ':';
    assert r[..|w|] == w;
  }

  /** The index of the first line boundary in `s`, or `|s|` when there is none. */
  function NextBreak(s: string): (i: nat)
    ensures i <= |s|
    ensures forall k :: 0 <= k < i ==> !IsLineBreak(s[k])
    ensures i < |s| ==> IsLineBreak(s[i])
  {
    LeadingRun(s, c => !IsLineBreak(c))
  }

  /** The first line boundary is the one after a boundary-free prefix. */
  lemma NextBreakExact(s: string, n: nat)
    requires n <= |s| && forall k :: 0 <= k < n ==> !IsLineBreak(s[k])
    requires n < |s| ==> IsLineBreak(s[n])
    ensures NextBreak(s) == n
  {
    LeadingRunExact(s, c => !IsLineBreak(c), n);
  }

  /**
    Python's `str.splitlines()`: the text between line boundaries, where
    "\r\n" counts as one boundary and a final boundary opens no empty line.
  */
  function SplitLines(s: string): (lines: seq<string>)
    ensures |lines| <= |s|
    ensures forall j :: 0 <= j < |lines| ==> forall k :: 0 <= k < |lines[j]| ==> !IsLineBreak(lines[j][k])
    decreases |s|
  {
    if s == [] then []
    else
      var i := NextBreak(s);
      if i == |s| then [s]
      else
        var width := if s[i] == '\r' && i + 1 < |s| && s[i + 1] == '\n' then 2 else 1;
        [s[..i]] + SplitLines(s[i + width..])
  }

  /** `"\n".join(lines)`. */
  function JoinLines(lines: seq<string>): string
  {
    if lines == [] then ""
    else if |lines| == 1 then lines[0]
    else lines[0] + "\n" + JoinLines(lines[1..])
  }

  /**
    `splitlines` undoes a join with "\n" of lines that hold no line boundary,
    as long as the last line is not empty (an empty last line is not
    reported by `splitlines`).
  */
  lemma {:induction false} SplitJoinLines(lines: seq<string>)
    requires forall j :: 0 <= j < |lines| ==> forall k :: 0 <= k < |lines[j]| ==> !IsLineBreak(lines[j][k])
    requires lines != [] ==> lines[|lines| - 1] != ""
    ensures SplitLines(JoinLines(lines)) == lines
    decreases |lines|
  {
    if |lines| == 1 {
      NextBreakExact(lines[0], |lines[0]|);
    } else if |lines| > 1 {
      SplitAfterLine(lines[0], JoinLines(lines[1..]));
      SplitJoinLines(lines[1..]);
    }
  }

  /** A boundary-free line followed by "\n" is split off as the first line. */
  lemma SplitAfterLine(w: string, rest: string)
    requires forall k :: 0 <= k < |w| ==> !IsLineBreak(w[k])
    ensures SplitLines(w + "\n" + rest) == [w] + SplitLines(rest)
  {
    var s := w + "\n" + rest;
    assert forall k :: 0 <= k < |w| ==> s[k] == w[k];
    assert s[|w|] == '\n';
    NextBreakExact(s, |w|);
    assert s[..|w|] == w;
    assert s[|w| + 1..] == rest;
  }

  /** Decimal notation of a natural number, as Python's `str(n)`. */
  function DecimalString(n: nat): (r: string)
    ensures r != []
    ensures forall k :: 0 <= k < |r| ==> IsDigit(r[k])
  {
    var last := ['0' + (n % 10) as char];
    if n < 10 then last else DecimalString(n / 10) + last
  }

  /** The number a string of decimal digits denotes. */
  function DigitsValue(s: string): nat
    requires forall k :: 0 <= k < |s| ==> IsDigit(s[k])
  {
    if s == [] then 0
    else
      var last := s[|s| - 1];
      assert IsDigit(last);
      DigitsValue(s[..|s| - 1]) * 10 + (last as int - '0' as int)
  }

  /** Decimal notation denotes the number it was written for. */
  lemma {:induction false} DecimalRoundTrip(n: nat)
    ensures DigitsValue(DecimalString(n)) == n
  {
    var r := DecimalString(n);
    if n >= 10 {
      DecimalRoundTrip(n / 10);
      assert r[..|r| - 1] == DecimalString(n / 10);
    }
  }

  /** Distinct numbers have distinct decimal notations. */
  lemma DecimalStringInjective(m: nat, n: nat)
    requires DecimalString(m) == DecimalString(n)
    ensures m == n
  {
    DecimalRoundTrip(m);
    DecimalRoundTrip(n);
  }
}
