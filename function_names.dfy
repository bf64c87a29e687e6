/**
 * extractFunctionName: five regular expressions tried in order on a code snippet; the
 * first that matches somewhere gives its capture group.
 *
 * Every quantifier in these expressions is followed by a character its own class cannot
 * hold, so backtracking never shortens a run: at a given start index each expression
 * either matches with maximal runs or not at all. A match is the one at the leftmost start
 * index, as with String.prototype.match.
 */
module FunctionNames {
  import opened Wrappers
  import opened Strings

  /** `[\w<>]`: a C++ return-type character. */
  predicate IsCppTypeChar(c: char) { IsWordChar(c) || c == '<' || c == '>' }

  /** `[\w<>[\]]`: a Java return-type character. */
  predicate IsJavaTypeChar(c: char) { IsCppTypeChar(c) || c == '[' || c == ']' }

  predicate NotCloseParen(c: char) { c != ')' }

  /** The length of the run of characters satisfying `P` that starts at `i`. */
  function RunLen(s: string, i: nat, P: char -> bool): (n: nat)
    ensures i + n <= |s| || (i > |s| && n == 0)
    ensures forall k :: i <= k < i + n ==> P(s[k])
    ensures i + n < |s| ==> !P(s[i + n])
    decreases |s| - i
  {
    if i < |s| && P(s[i]) then 1 + RunLen(s, i + 1, P) else 0
  }

  /** `s` holds `w` at index `i`. */
  predicate LiteralAt(s: string, i: nat, w: string) {
    i + |w| <= |s| && s[i..i + |w|] == w
  }

  /** The character at `i` is `c`. */
  predicate CharAt(s: string, i: nat, c: char) {
    i < |s| && s[i] == c
  }

  /** The index after `\s*\([^)]*\)\s*` starting at `i`, when a '(' and a ')' are there. */
  function AfterParams(s: string, i: nat): Option<nat> {
    var open := i + RunLen(s, i, IsSpace);
    if !CharAt(s, open, '(') then None
    else
      var close := open + 1 + RunLen(s, open + 1, NotCloseParen);
      if !CharAt(s, close, ')') then None
      else Some(close + 1 + RunLen(s, close + 1, IsSpace))
  }

  /** `name` is a non-empty run of word characters found at index `k` of `s`. */
  ghost predicate CapturedAt(s: string, name: string, k: int) {
    |name| > 0 && (forall m :: 0 <= m < |name| ==> IsWordChar(name[m])) && OccursAt(s, name, k)
  }

  /** A capture is a non-empty run of word characters found at some index of the code. */
  ghost predicate Captured(s: string, name: string) {
    exists k :: CapturedAt(s, name, k)
  }

  /** `(\w+)\s*\(` at `k`, the name's end included: the name when the '(' follows. */
  function NameThenParen(s: string, k: nat): (r: Option<string>)
    ensures r.Some? ==> CapturedAt(s, r.value, k)
  {
    var n := RunLen(s, k, IsWordChar);
    if n == 0 then None
    else
      var after := k + n + RunLen(s, k + n, IsSpace);
      if CharAt(s, after, '(') then Some(s[k..k + n]) else None
  }

  /** `(\w+)\s*\([^)]*\)\s*\{` at `k`. */
  function NameThenBody(s: string, k: nat): (r: Option<string>)
    ensures r.Some? ==> CapturedAt(s, r.value, k)
  {
    var n := RunLen(s, k, IsWordChar);
    if n == 0 then None
    else match AfterParams(s, k + n)
      case Some(j) => if CharAt(s, j, '{') then Some(s[k..k + n]) else None
      case None => None
  }

  /** `[\w<>]+\s+(\w+)\s*\([^)]*\)\s*\{` at `i`. */
  function CppAt(s: string, i: nat): (r: Option<string>)
    ensures r.Some? ==> Captured(s, r.value)
  {
    var a := RunLen(s, i, IsCppTypeChar);
    var b := RunLen(s, i + a, IsSpace);
    if a == 0 || b == 0 then None else NameThenBody(s, i + a + b)
  }

  /** `public\s+[\w<>[\]]+\s+(\w+)\s*\([^)]*\)\s*\{` at `i`. */
  function JavaAt(s: string, i: nat): (r: Option<string>)
    ensures r.Some? ==> Captured(s, r.value)
  {
    if !LiteralAt(s, i, "public") then None
    else
      var j := i + 6;
      var b := RunLen(s, j, IsSpace);
      var t := RunLen(s, j + b, IsJavaTypeChar);
      var c := RunLen(s, j + b + t, IsSpace);
      if b == 0 || t == 0 || c == 0 then None else NameThenBody(s, j + b + t + c)
  }

  /** `<keyword>\s+(\w+)\s*\(` at `i`, for `fun` and `function`. */
  function KeywordAt(s: string, i: nat, keyword: string): (r: Option<string>)
    ensures r.Some? ==> Captured(s, r.value)
  {
    if !LiteralAt(s, i, keyword) then None
    else
      var j := i + |keyword|;
      var b := RunLen(s, j, IsSpace);
      if b == 0 then None else NameThenParen(s, j + b)
  }

  /** `(\w+)\s*[=:]\s*\(` at `i`. */
  function ArrowAt(s: string, i: nat): (r: Option<string>)
    ensures r.Some? ==> CapturedAt(s, r.value, i)
  {
    var n := RunLen(s, i, IsWordChar);
    if n == 0 then None
    else
      var op := i + n + RunLen(s, i + n, IsSpace);
      if !(CharAt(s, op, '=') || CharAt(s, op, ':')) then None
      else
        var open := op + 1 + RunLen(s, op + 1, IsSpace);
        if CharAt(s, open, '(') then Some(s[i..i + n]) else None
  }

  /** The five expressions, in the order they are tried. */
  datatype Pattern = CppMethod | JavaMethod | KotlinFun | JsFunction | Arrow

  /** Every expression captures a non-empty word that occurs in the code. */
  function MatchAt(p: Pattern, s: string, i: nat): (r: Option<string>)
    ensures r.Some? ==> Captured(s, r.value)
  {
    match p
    case CppMethod => CppAt(s, i)
    case JavaMethod => JavaAt(s, i)
    case KotlinFun => KeywordAt(s, i, "fun")
    case JsFunction => KeywordAt(s, i, "function")
    case Arrow => ArrowAt(s, i)
  }

  /** The first `Some` among `m(i)`, `m(i + 1)`, ..., `m(n)`: a left-to-right scan. */
  function FirstIn(m: nat -> Option<string>, n: nat, i: nat): Option<string>
    decreases n + 1 - i
  {
    if i > n then None
    else if m(i).Some? then m(i)
    else FirstIn(m, n, i + 1)
  }

  /** The expression `p` tried at each start index of `s`. */
  function Matcher(p: Pattern, s: string): nat -> Option<string> {
    (j: nat) => MatchAt(p, s, j)
  }

  /** `s.match(p)` from index `i` on: the capture of the leftmost match. */
  function FirstMatch(p: Pattern, s: string, i: nat): Option<string> {
    FirstIn(Matcher(p, s), |s|, i)
  }

  /** extractFunctionName. */
  function ExtractFunctionName(code: string): Option<string> {
    if FirstMatch(CppMethod, code, 0).Some? then FirstMatch(CppMethod, code, 0)
    else if FirstMatch(JavaMethod, code, 0).Some? then FirstMatch(JavaMethod, code, 0)
    else if FirstMatch(KotlinFun, code, 0).Some? then FirstMatch(KotlinFun, code, 0)
    else if FirstMatch(JsFunction, code, 0).Some? then FirstMatch(JsFunction, code, 0)
    else FirstMatch(Arrow, code, 0)
  }

  // ---------------------------------------------------------------------------
  // Properties
  // ---------------------------------------------------------------------------

  /**
   * The scan returns the value at some index at or after `i` before which every index
   * gives None, and it is None exactly when every index gives None.
   */
  lemma {:induction false} FirstInIsLeftmost(m: nat -> Option<string>, n: nat, i: nat)
    ensures FirstIn(m, n, i).None? <==> forall j :: i <= j <= n ==> m(j).None?
    ensures FirstIn(m, n, i).Some? ==> exists j :: i <= j <= n && m(j) == FirstIn(m, n, i)
                                          && (forall k :: i <= k < j ==> m(k).None?)
    decreases n + 1 - i
  {
    if i <= n && m(i).None? {
      FirstInIsLeftmost(m, n, i + 1);
      if FirstIn(m, n, i).Some? {
        var j :| i + 1 <= j <= n && m(j) == FirstIn(m, n, i + 1)
          && forall k :: i + 1 <= k < j ==> m(k).None?;
        assert forall k :: i <= k < j ==> m(k).None?;
      }
    }
  }

  /**
   * FirstMatch is the leftmost match: it is the capture at some index at or after `i`
   * before which no index matches, and it is None exactly when no index matches.
   */
  lemma FirstMatchIsLeftmost(p: Pattern, s: string, i: nat)
    ensures FirstMatch(p, s, i).None? <==> forall j :: i <= j <= |s| ==> MatchAt(p, s, j).None?
    ensures FirstMatch(p, s, i).Some? ==> exists j :: i <= j <= |s| && MatchAt(p, s, j) == FirstMatch(p, s, i)
                                             && (forall m :: i <= m < j ==> MatchAt(p, s, m).None?)
  {
    var m := Matcher(p, s);
    FirstInIsLeftmost(m, |s|, i);
    assert forall j :: m(j) == MatchAt(p, s, j);
  }

  /** The extracted name is a non-empty word that occurs in the code. */
  lemma ExtractedNameOccurs(code: string)
    ensures ExtractFunctionName(code).Some? ==> Captured(code, ExtractFunctionName(code).value)
  {
    if ExtractFunctionName(code).Some? {
      var p := if FirstMatch(CppMethod, code, 0).Some? then CppMethod
        else if FirstMatch(JavaMethod, code, 0).Some? then JavaMethod
        else if FirstMatch(KotlinFun, code, 0).Some? then KotlinFun
        else if FirstMatch(JsFunction, code, 0).Some? then JsFunction
        else Arrow;
      FirstMatchIsLeftmost(p, code, 0);
      var j :| 0 <= j <= |code| && MatchAt(p, code, j) == FirstMatch(p, code, 0)
        && forall m :: 0 <= m < j ==> MatchAt(p, code, m).None?;
    }
  }

  /** No match anywhere for `p`. */
  predicate NoMatch(p: Pattern, s: string) {
    forall j :: 0 <= j <= |s| ==> MatchAt(p, s, j).None?
  }

  /**
   * The expressions are tried in order: the name comes from the first expression that
   * matches anywhere, and there is none only when none of the five matches anywhere.
   */
  lemma ExtractFunctionNameOrder(code: string)
    ensures ExtractFunctionName(code).None? <==>
      NoMatch(CppMethod, code) && NoMatch(JavaMethod, code) && NoMatch(KotlinFun, code)
      && NoMatch(JsFunction, code) && NoMatch(Arrow, code)
    ensures !NoMatch(CppMethod, code) ==> ExtractFunctionName(code) == FirstMatch(CppMethod, code, 0)
    ensures NoMatch(CppMethod, code) && !NoMatch(JavaMethod, code) ==>
      ExtractFunctionName(code) == FirstMatch(JavaMethod, code, 0)
    ensures NoMatch(CppMethod, code) && NoMatch(JavaMethod, code) && !NoMatch(KotlinFun, code) ==>
      ExtractFunctionName(code) == FirstMatch(KotlinFun, code, 0)
    ensures (NoMatch(CppMethod, code) && NoMatch(JavaMethod, code) && NoMatch(KotlinFun, code)
             && !NoMatch(JsFunction, code)) ==>
      ExtractFunctionName(code) == FirstMatch(JsFunction, code, 0)
    ensures (NoMatch(CppMethod, code) && NoMatch(JavaMethod, code) && NoMatch(KotlinFun, code)
             && NoMatch(JsFunction, code)) ==>
      ExtractFunctionName(code) == FirstMatch(Arrow, code, 0)
  {
    FirstMatchIsLeftmost(CppMethod, code, 0);
    FirstMatchIsLeftmost(JavaMethod, code, 0);
    FirstMatchIsLeftmost(KotlinFun, code, 0);
    FirstMatchIsLeftmost(JsFunction, code, 0);
    FirstMatchIsLeftmost(Arrow, code, 0);
  }
}
