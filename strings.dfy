/**
 * String primitives of the JavaScript and Rust standard libraries that the CLI relies on:
 * character classes, ASCII case mapping, substring search, literal global replacement,
 * split, join, trim and padStart. Case mapping is ASCII only.
 */
module Strings {

  // ---------------------------------------------------------------------------
  // Character classes
  // ---------------------------------------------------------------------------

  predicate IsUpper(c: char) { 'A' <= c <= 'Z' }
  predicate IsLower(c: char) { 'a' <= c <= 'z' }
  predicate IsDigit(c: char) { '0' <= c <= '9' }
  predicate IsAlnum(c: char) { IsUpper(c) || IsLower(c) || IsDigit(c) }

  /** `\w` in a JavaScript regular expression. */
  predicate IsWordChar(c: char) { IsAlnum(c) || c == '_' }

  /** `\s` in a JavaScript regular expression; also what String.prototype.trim removes. */
  predicate IsSpace(c: char) {
    || c == ' ' || c == '\t' || c == '\n' || c == '\U{B}' || c == '\U{C}' || c == '\r'
    || c == '\U{A0}' || c == '\U{1680}' || ('\U{2000}' <= c <= '\U{200A}')
    || c == '\U{2028}' || c == '\U{2029}' || c == '\U{202F}' || c == '\U{205F}'
    || c == '\U{3000}' || c == '\U{FEFF}'
  }

  function ToLowerChar(c: char): char {
    if IsUpper(c) then (c as int + 32) as char else c
  }

  function ToUpperChar(c: char): char {
    if IsLower(c) then (c as int - 32) as char else c
  }

  /** toLowerCase / to_lowercase, restricted to ASCII letters. */
  function ToLower(s: string): string {
    seq(|s|, i requires 0 <= i < |s| => ToLowerChar(s[i]))
  }

  /** toUpperCase, restricted to ASCII letters. */
  function ToUpper(s: string): string {
    seq(|s|, i requires 0 <= i < |s| => ToUpperChar(s[i]))
  }

  lemma LowerHead(w: string)
    requires |w| > 0
    ensures ToLower(w) == [ToLowerChar(w[0])] + ToLower(w[1..])
  {
  }

  predicate AllLower(s: string) {
    forall i :: 0 <= i < |s| ==> !IsUpper(s[i])
  }

  lemma ToLowerIsLower(s: string)
    ensures AllLower(ToLower(s))
  {
  }

  // ---------------------------------------------------------------------------
  // Substrings
  // ---------------------------------------------------------------------------

  predicate StartsWith(s: string, p: string) {
    |p| <= |s| && s[..|p|] == p
  }

  /** `p` occurs in `s` starting at index `i`. */
  ghost predicate OccursAt(s: string, p: string, i: int) {
    0 <= i && i + |p| <= |s| && s[i..i + |p|] == p
  }

  /** String.prototype.includes / str::contains. */
  function Contains(s: string, p: string): bool
    decreases |s|
  {
    if StartsWith(s, p) then true
    else if |s| == 0 then false
    else Contains(s[1..], p)
  }

  lemma {:induction false} ContainsIffOccurs(s: string, p: string)
    ensures Contains(s, p) <==> exists i :: OccursAt(s, p, i)
    decreases |s|
  {
    if StartsWith(s, p) {
      assert OccursAt(s, p, 0);
    } else if |s| > 0 {
      ContainsIffOccurs(s[1..], p);
      forall i | OccursAt(s, p, i)
        ensures 1 <= i && OccursAt(s[1..], p, i - 1)
      {
        if 1 <= i {
          assert s[1..][i - 1..i - 1 + |p|] == s[i..i + |p|];
        }
      }
      forall i | OccursAt(s[1..], p, i)
        ensures OccursAt(s, p, i + 1)
      {
        assert s[1..][i..i + |p|] == s[i + 1..i + 1 + |p|];
      }
    }
  }

  /** Text can contain a pattern only if it holds the pattern's first character. */
  lemma {:induction false} ContainsHead(s: string, p: string)
    requires |p| > 0 && Contains(s, p)
    ensures p[0] in s
    decreases |s|
  {
    if !StartsWith(s, p) {
      ContainsHead(s[1..], p);
    }
  }

  lemma OccursContains(s: string, p: string, i: int)
    requires OccursAt(s, p, i)
    ensures Contains(s, p)
  {
    ContainsIffOccurs(s, p);
  }

  // ---------------------------------------------------------------------------
  // Literal global replacement
  // ---------------------------------------------------------------------------

  /**
   * Replaces every occurrence of the non-empty literal `p`, scanning from the left and
   * resuming after each replaced occurrence (Rust's str::replace; a global regular
   * expression made only of literal characters, with a replacement free of `$`).
   */
  function ReplaceAll(s: string, p: string, v: string): string
    requires |p| > 0
    decreases |s|
  {
    if |s| == 0 then []
    else if StartsWith(s, p) then v + ReplaceAll(s[|p|..], p, v)
    else [s[0]] + ReplaceAll(s[1..], p, v)
  }

  /** A string in which the pattern does not occur comes back unchanged. */
  lemma {:induction false} ReplaceAllAbsent(s: string, p: string, v: string)
    requires |p| > 0
    requires !Contains(s, p)
    ensures ReplaceAll(s, p, v) == s
    decreases |s|
  {
    if |s| > 0 {
      assert !StartsWith(s, p);
      ReplaceAllAbsent(s[1..], p, v);
      assert s == [s[0]] + s[1..];
    }
  }

  /** A prefix that does not contain the pattern's first character is copied through. */
  lemma {:induction false} ReplaceAllSkipsPrefix(w: string, r: string, p: string, v: string)
    requires |p| > 0
    requires p[0] !in w
    ensures ReplaceAll(w + r, p, v) == w + ReplaceAll(r, p, v)
    decreases |w|
  {
    if |w| == 0 {
      assert w + r == r;
    } else {
      assert (w + r)[0] == w[0];
      assert !StartsWith(w + r, p);
      assert (w + r)[1..] == w[1..] + r;
      ReplaceAllSkipsPrefix(w[1..], r, p, v);
      assert w == [w[0]] + w[1..];
    }
  }

  /**
   * When the pattern's first occurrence in `a + p + b` is the marked one, that occurrence
   * becomes `v` and the two sides are replaced independently.
   */
  lemma {:induction false} ReplaceAllAround(a: string, p: string, b: string, v: string)
    requires |p| > 0
    requires forall i :: 0 <= i < |a| ==> !OccursAt(a + p, p, i)
    ensures ReplaceAll(a + p + b, p, v) == ReplaceAll(a, p, v) + v + ReplaceAll(b, p, v)
    decreases |a|
  {
    var s := a + p + b;
    if |a| == 0 {
      assert s == p + b && StartsWith(s, p) && s[|p|..] == b;
      assert ReplaceAll(a, p, v) == [];
    } else {
      var t := a[1..];
      NoEarlyOccurrence(a, p, b);
      ReplaceAllAround(t, p, b, v);
      assert s[1..] == t + p + b;
      calc {
        ReplaceAll(s, p, v);
        [a[0]] + ReplaceAll(t + p + b, p, v);
        [a[0]] + (ReplaceAll(t, p, v) + v + ReplaceAll(b, p, v));
        ([a[0]] + ReplaceAll(t, p, v)) + v + ReplaceAll(b, p, v);
        ReplaceAll(a, p, v) + v + ReplaceAll(b, p, v);
      }
    }
  }

  /** No occurrence before the marked one: none at the start, and none in what follows the first character. */
  lemma NoEarlyOccurrence(a: string, p: string, b: string)
    requires |p| > 0 && |a| > 0
    requires forall i :: 0 <= i < |a| ==> !OccursAt(a + p, p, i)
    ensures !StartsWith(a + p + b, p) && !StartsWith(a, p)
    ensures forall i :: 0 <= i < |a[1..]| ==> !OccursAt(a[1..] + p, p, i)
  {
    assert !OccursAt(a + p, p, 0);
    assert (a + p + b)[..|p|] == (a + p)[..|p|];
    assert !StartsWith(a, p) by {
      if |p| <= |a| {
        assert (a + p)[0..|p|] == a[..|p|];
      }
    }
    forall i | 0 <= i < |a[1..]|
      ensures !OccursAt(a[1..] + p, p, i)
    {
      assert !OccursAt(a + p, p, i + 1);
      assert (a[1..] + p)[i..i + |p|] == (a + p)[i + 1..i + 1 + |p|];
    }
  }

  // ---------------------------------------------------------------------------
  // Split, join, trim, pad
  // ---------------------------------------------------------------------------

  /** String.prototype.split with a one-character separator; there is always a field. */
  function Split(s: string, sep: char): (r: seq<string>)
    ensures |r| >= 1
  {
    if |s| == 0 then [""]
    else
      var rest := Split(s[1..], sep);
      if s[0] == sep then [""] + rest else [[s[0]] + rest[0]] + rest[1..]
  }

  /** Drops the leading run of `\s` characters. */
  function DropSpaces(s: string): (r: string)
    ensures |r| <= |s|
  {
    if |s| > 0 && IsSpace(s[0]) then DropSpaces(s[1..]) else s
  }

  /** String.prototype.split(/\s+/): fields between maximal runs of whitespace. */
  function SplitOnSpaceRuns(s: string): (r: seq<string>)
    ensures |r| >= 1
    decreases |s|
  {
    if |s| == 0 then [""]
    else if IsSpace(s[0]) then [""] + SplitOnSpaceRuns(DropSpaces(s))
    else
      var rest := SplitOnSpaceRuns(s[1..]);
      [[s[0]] + rest[0]] + rest[1..]
  }

  /** Every field of Split holds characters of the input other than the separator. */
  lemma {:induction false} SplitFields(s: string, sep: char, P: char -> bool)
    requires forall i :: 0 <= i < |s| ==> P(s[i])
    ensures forall k, i :: 0 <= k < |Split(s, sep)| && 0 <= i < |Split(s, sep)[k]| ==>
      P(Split(s, sep)[k][i]) && Split(s, sep)[k][i] != sep
  {
    if |s| > 0 {
      SplitFields(s[1..], sep, P);
      assert P(s[0]);
    }
  }

  /** Every field of SplitOnSpaceRuns holds characters of the input and no whitespace. */
  lemma {:induction false} SplitOnSpaceRunsFields(s: string, P: char -> bool)
    requires forall i :: 0 <= i < |s| ==> P(s[i])
    ensures forall k, i :: 0 <= k < |SplitOnSpaceRuns(s)| && 0 <= i < |SplitOnSpaceRuns(s)[k]| ==>
      P(SplitOnSpaceRuns(s)[k][i]) && !IsSpace(SplitOnSpaceRuns(s)[k][i])
    decreases |s|
  {
    if |s| > 0 {
      if IsSpace(s[0]) {
        DropSpacesSuffix(s);
        SplitOnSpaceRunsFields(DropSpaces(s), P);
      } else {
        SplitOnSpaceRunsFields(s[1..], P);
        assert P(s[0]);
      }
    }
  }

  lemma {:induction false} DropSpacesSuffix(s: string)
    ensures |DropSpaces(s)| <= |s| && DropSpaces(s) == s[|s| - |DropSpaces(s)|..]
  {
    if |s| > 0 && IsSpace(s[0]) {
      DropSpacesSuffix(s[1..]);
    }
  }

  /** Array.prototype.join. */
  function Join(parts: seq<string>, sep: string): string {
    if |parts| == 0 then ""
    else if |parts| == 1 then parts[0]
    else parts[0] + sep + Join(parts[1..], sep)
  }

  /** Join only uses characters of its parts and of the separator. */
  lemma {:induction false} JoinChars(parts: seq<string>, sep: string, P: char -> bool)
    requires forall k, i :: 0 <= k < |parts| && 0 <= i < |parts[k]| ==> P(parts[k][i])
    requires forall i :: 0 <= i < |sep| ==> P(sep[i])
    ensures forall i :: 0 <= i < |Join(parts, sep)| ==> P(Join(parts, sep)[i])
  {
    if |parts| > 1 {
      JoinChars(parts[1..], sep, P);
      assert forall i :: 0 <= i < |parts[0]| ==> P(parts[0][i]);
    } else if |parts| == 1 {
      assert forall i :: 0 <= i < |parts[0]| ==> P(parts[0][i]);
    }
  }

  function TrimStart(s: string): string {
    if |s| > 0 && IsSpace(s[0]) then TrimStart(s[1..]) else s
  }

  function TrimEnd(s: string): string {
    if |s| > 0 && IsSpace(s[|s| - 1]) then TrimEnd(s[..|s| - 1]) else s
  }

  /** String.prototype.trim. */
  function Trim(s: string): string {
    TrimEnd(TrimStart(s))
  }

  function Repeat(c: char, n: nat): (r: string)
    ensures |r| == n && forall i :: 0 <= i < n ==> r[i] == c
  {
    if n == 0 then "" else [c] + Repeat(c, n - 1)
  }

  /** String.prototype.padStart with a one-character fill; Rust's `{:0>4}` for `fill == '0'`. */
  function PadStart(s: string, width: nat, fill: char): string {
    if |s| >= width then s else Repeat(fill, width - |s|) + s
  }

  /** String.prototype.replace with a one-character string pattern: the first occurrence only. */
  function ReplaceFirstChar(s: string, c: char, d: char): string {
    if |s| == 0 then s
    else if s[0] == c then [d] + s[1..]
    else [s[0]] + ReplaceFirstChar(s[1..], c, d)
  }

  /** Only the first occurrence is replaced: what precedes it and what follows it are kept. */
  lemma {:induction false} ReplaceFirstCharAt(a: string, b: string, c: char, d: char)
    requires c !in a
    ensures ReplaceFirstChar(a + [c] + b, c, d) == a + [d] + b
  {
    if |a| > 0 {
      assert (a + [c] + b)[1..] == a[1..] + [c] + b;
      ReplaceFirstCharAt(a[1..], b, c, d);
      assert [a[0]] + (a[1..] + [d] + b) == a + [d] + b;
    }
  }

  /** Replaces every occurrence of one character by another. */
  function ReplaceEveryChar(s: string, c: char, d: char): string {
    seq(|s|, i requires 0 <= i < |s| => if s[i] == c then d else s[i])
  }

  /** The part after the last `sep`: the last item of `s.split(sep)`. */
  function LastField(s: string, sep: char): string {
    var fields := Split(s, sep);
    fields[|fields| - 1]
  }

  // ---------------------------------------------------------------------------
  // Decimal numerals
  // ---------------------------------------------------------------------------

  function DigitChar(d: nat): (c: char)
    requires d < 10
    ensures IsDigit(c) && (c as int) - ('0' as int) == d
  {
    (('0' as int) + d) as char
  }

  /** The decimal numeral of `n`, as template literals and `{}` print it. */
  function NatToString(n: nat): (r: string)
    ensures |r| > 0 && forall i :: 0 <= i < |r| ==> IsDigit(r[i])
    ensures r[0] == '0' ==> n == 0
    decreases n
  {
    if n < 10 then [DigitChar(n)] else NatToString(n / 10) + [DigitChar(n % 10)]
  }

  /** The number a string of decimal digits denotes. */
  function DigitsValue(s: string): nat
    requires forall i :: 0 <= i < |s| ==> IsDigit(s[i])
  {
    if |s| == 0 then 0
    else
      var c := s[|s| - 1];
      assert IsDigit(c);
      10 * DigitsValue(s[..|s| - 1]) + ((c as int) - ('0' as int))
  }

  /** The numeral denotes the number: no two numbers print alike. */
  lemma {:induction false} NatToStringValue(n: nat)
    ensures DigitsValue(NatToString(n)) == n
    decreases n
  {
    if n >= 10 {
      var r := NatToString(n);
      NatToStringValue(n / 10);
      assert r[..|r| - 1] == NatToString(n / 10);
    }
  }

  function IntToString(i: int): (r: string)
    ensures |r| > 0
    ensures (i < 0) <==> r[0] == '-'
  {
    if i < 0 then "-" + NatToString(-i) else NatToString(i)
  }

  lemma IntToStringInjective(a: int, b: int)
    requires IntToString(a) == IntToString(b)
    ensures a == b
  {
    if a < 0 && b < 0 {
      assert NatToString(-a) == IntToString(a)[1..];
      assert NatToString(-b) == IntToString(b)[1..];
      NatToStringValue(-a);
      NatToStringValue(-b);
    } else if a >= 0 && b >= 0 {
      NatToStringValue(a);
      NatToStringValue(b);
    }
  }
}
