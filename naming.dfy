/**
 * Names derived from a problem's title and id: the camelCase function name, the PascalCase
 * class name, the snake_case file stem and the zero-padded problem number.
 */
module Naming {
  import opened Strings

  /** A character that survives `.replace(/[^a-zA-Z0-9\s]/g, '')`. */
  predicate IsNameChar(c: char) {
    IsAlnum(c) || IsSpace(c)
  }

  /** `.replace(/[^a-zA-Z0-9\s]/g, '')`: deletes every other character. */
  function KeepNameChars(s: string): (r: string)
    ensures forall i :: 0 <= i < |r| ==> IsNameChar(r[i])
    ensures forall i :: 0 <= i < |r| ==> r[i] in s
    ensures (forall i :: 0 <= i < |s| ==> IsNameChar(s[i])) ==> r == s
    ensures |s| == 1 ==> r == if IsNameChar(s[0]) then s else ""
  {
    if |s| == 0 then ""
    else
      var rest := KeepNameChars(s[1..]);
      if IsNameChar(s[0]) then
        assert s == [s[0]] + s[1..];
        [s[0]] + rest
      else rest
  }

  /**
   * The filter works character by character: filtering a concatenation filters each part,
   * so every letter, digit and whitespace character of the title is kept, in order.
   */
  lemma {:induction false} KeepNameCharsAppend(a: string, b: string)
    ensures KeepNameChars(a + b) == KeepNameChars(a) + KeepNameChars(b)
  {
    if |a| > 0 {
      assert (a + b)[1..] == a[1..] + b;
      KeepNameCharsAppend(a[1..], b);
    } else {
      assert a + b == b;
    }
  }

  /** `word.charAt(0).toUpperCase() + word.slice(1).toLowerCase()`. */
  function Capitalize(w: string): string {
    if |w| == 0 then w else [ToUpperChar(w[0])] + ToLower(w[1..])
  }

  /** The capitalised words, concatenated (`.map(capitalise).join('')`). */
  function CapitalizeAll(ws: seq<string>): string {
    if |ws| == 0 then "" else Capitalize(ws[0]) + CapitalizeAll(ws[1..])
  }

  /** The words of a title, after the filter, split on single spaces. */
  function Words(title: string): (r: seq<string>)
    ensures |r| >= 1
  {
    Split(KeepNameChars(title), ' ')
  }

  /** formatProblemName: "Two Sum" becomes "twoSum". */
  function CamelName(title: string): string {
    var ws := Words(title);
    ToLower(ws[0]) + CapitalizeAll(ws[1..])
  }

  /** formatClassName: "Two Sum" becomes "TwoSum". */
  function ClassName(title: string): string {
    CapitalizeAll(Words(title))
  }

  /** formatSnakeCase: "Two Sum" becomes "two_sum"; whitespace runs become one underscore. */
  function SnakeName(title: string): string {
    Join(SplitOnSpaceRuns(ToLower(KeepNameChars(title))), "_")
  }

  /** Upper-cases the first character only. */
  function UpperFirst(s: string): string {
    if |s| == 0 then s else [ToUpperChar(s[0])] + s[1..]
  }

  lemma UpperOfLower(c: char)
    ensures ToUpperChar(ToLowerChar(c)) == ToUpperChar(c)
  {
  }

  /** A run of capitalised words already starts with an upper-case letter (or is empty). */
  lemma {:induction false} UpperFirstCapitalizeAll(ws: seq<string>)
    ensures UpperFirst(CapitalizeAll(ws)) == CapitalizeAll(ws)
  {
    if |ws| > 0 {
      if |ws[0]| == 0 {
        assert CapitalizeAll(ws) == CapitalizeAll(ws[1..]);
        UpperFirstCapitalizeAll(ws[1..]);
      } else {
        var c := ToUpperChar(ws[0][0]);
        assert CapitalizeAll(ws)[0] == c;
        assert ToUpperChar(c) == c;
      }
    }
  }

  lemma CapitalizeAllOfWords(ws: seq<string>)
    requires |ws| >= 1
    ensures CapitalizeAll(ws) == UpperFirst(ToLower(ws[0]) + CapitalizeAll(ws[1..]))
  {
    var rest := CapitalizeAll(ws[1..]);
    assert CapitalizeAll(ws) == Capitalize(ws[0]) + rest;
    if |ws[0]| == 0 {
      assert ToLower(ws[0]) + rest == rest;
      UpperFirstCapitalizeAll(ws[1..]);
    } else {
      CapitalizeLowered(ws[0], rest);
    }
  }

  lemma CapitalizeLowered(w: string, rest: string)
    requires |w| > 0
    ensures Capitalize(w) + rest == UpperFirst(ToLower(w) + rest)
  {
    var lw := ToLower(w);
    LowerHead(w);
    UpperOfLower(w[0]);
    assert (lw + rest)[0] == ToLowerChar(w[0]);
    assert (lw + rest)[1..] == ToLower(w[1..]) + rest;
  }

  /** The class name is the function name with its first character upper-cased. */
  lemma ClassNameIsUpperFirstOfCamel(title: string)
    ensures ClassName(title) == UpperFirst(CamelName(title))
  {
    CapitalizeAllOfWords(Words(title));
  }

  /** The text with every space character ' ' removed. */
  function WithoutSpaces(s: string): (r: string)
    ensures |r| <= |s| && ' ' !in r
  {
    if |s| == 0 then ""
    else if s[0] == ' ' then WithoutSpaces(s[1..])
    else [s[0]] + WithoutSpaces(s[1..])
  }

  lemma LowerCons(c: char, s: string)
    ensures ToLower([c] + s) == [ToLowerChar(c)] + ToLower(s)
  {
    LowerHead([c] + s);
    assert ([c] + s)[1..] == s;
  }

  lemma LowerOfUpper(c: char)
    ensures ToLowerChar(ToUpperChar(c)) == ToLowerChar(c) && ToLowerChar(ToLowerChar(c)) == ToLowerChar(c)
  {
  }

  /**
   * A character-by-character reading of the naming rule, independent of split and join:
   * a space is dropped and starts a new word; the first character of a word is upper-cased
   * when `capital` holds, and every other character is lower-cased. The first word is
   * capitalised only when `capital` starts out true. Ignoring case, the result is the text
   * without its spaces.
   */
  function WordCase(s: string, atStart: bool, capital: bool): (r: string)
    ensures |r| == |WithoutSpaces(s)|
  {
    if |s| == 0 then ""
    else if s[0] == ' ' then WordCase(s[1..], true, true)
    else
      var c := if atStart && capital then ToUpperChar(s[0]) else ToLowerChar(s[0]);
      [c] + WordCase(s[1..], false, capital)
  }

  /** Ignoring case, the scan is the text without its spaces. */
  lemma {:induction false} WordCaseLower(s: string, atStart: bool, capital: bool)
    ensures ToLower(WordCase(s, atStart, capital)) == ToLower(WithoutSpaces(s))
  {
    if |s| > 0 {
      if s[0] == ' ' {
        WordCaseLower(s[1..], true, true);
      } else {
        var c := if atStart && capital then ToUpperChar(s[0]) else ToLowerChar(s[0]);
        var rest := WordCase(s[1..], false, capital);
        WordCaseLower(s[1..], false, capital);
        LowerOfUpper(s[0]);
        LowerCons(c, rest);
        LowerCons(s[0], WithoutSpaces(s[1..]));
      }
    }
  }

  /** The scan agrees with split(' ') followed by capitalising the words. */
  lemma {:induction false} WordCaseOfSplit(s: string)
    ensures var ws := Split(s, ' ');
      && WordCase(s, false, true) == ToLower(ws[0]) + CapitalizeAll(ws[1..])
      && WordCase(s, false, false) == ToLower(ws[0]) + CapitalizeAll(ws[1..])
      && WordCase(s, true, true) == Capitalize(ws[0]) + CapitalizeAll(ws[1..])
      && WordCase(s, true, false) == ToLower(ws[0]) + CapitalizeAll(ws[1..])
  {
    if |s| > 0 {
      var ws, rs := Split(s, ' '), Split(s[1..], ' ');
      WordCaseOfSplit(s[1..]);
      if s[0] == ' ' {
        WordCaseAfterSpace(s, ws, rs);
      } else {
        WordCaseInWord(s, ws, rs, false, true);
        WordCaseInWord(s, ws, rs, false, false);
        WordCaseInWord(s, ws, rs, true, true);
        WordCaseInWord(s, ws, rs, true, false);
      }
    }
  }

  lemma WordCaseAfterSpace(s: string, ws: seq<string>, rs: seq<string>)
    requires |s| > 0 && s[0] == ' ' && ws == Split(s, ' ') && rs == Split(s[1..], ' ')
    requires WordCase(s[1..], true, true) == Capitalize(rs[0]) + CapitalizeAll(rs[1..])
    ensures WordCase(s, false, true) == ToLower(ws[0]) + CapitalizeAll(ws[1..])
    ensures WordCase(s, false, false) == ToLower(ws[0]) + CapitalizeAll(ws[1..])
    ensures WordCase(s, true, true) == Capitalize(ws[0]) + CapitalizeAll(ws[1..])
    ensures WordCase(s, true, false) == ToLower(ws[0]) + CapitalizeAll(ws[1..])
  {
    var all := CapitalizeAll(rs);
    assert ws == [""] + rs;
    assert ws[0] == "" && ws[1..] == rs;
    assert all == Capitalize(rs[0]) + CapitalizeAll(rs[1..]);
    assert ToLower("") == "" && Capitalize("") == "";
  }

  lemma WordCaseInWord(s: string, ws: seq<string>, rs: seq<string>, atStart: bool, capital: bool)
    requires |s| > 0 && s[0] != ' ' && ws == Split(s, ' ') && rs == Split(s[1..], ' ')
    requires WordCase(s[1..], false, capital) == ToLower(rs[0]) + CapitalizeAll(rs[1..])
    ensures WordCase(s, atStart, capital) ==
      (if atStart && capital then Capitalize(ws[0]) else ToLower(ws[0])) + CapitalizeAll(ws[1..])
  {
    var w := [s[0]] + rs[0];
    assert ws[0] == w && ws[1..] == rs[1..] by {
      assert ws == [w] + rs[1..];
    }
    var c := if atStart && capital then ToUpperChar(s[0]) else ToLowerChar(s[0]);
    var first := if atStart && capital then Capitalize(w) else ToLower(w);
    assert first == [c] + ToLower(rs[0]) by {
      assert w[0] == s[0] && w[1..] == rs[0];
      LowerCons(s[0], rs[0]);
    }
    AppendAssoc([c], ToLower(rs[0]), CapitalizeAll(rs[1..]));
  }

  lemma AppendAssoc(a: string, b: string, c: string)
    ensures a + (b + c) == (a + b) + c
  {
  }

  /** formatClassName capitalises the first character of every word and lower-cases the rest. */
  lemma ClassNameByWords(title: string)
    ensures ClassName(title) == WordCase(KeepNameChars(title), true, true)
  {
    var ws := Words(title);
    WordCaseOfSplit(KeepNameChars(title));
    assert CapitalizeAll(ws) == Capitalize(ws[0]) + CapitalizeAll(ws[1..]);
  }

  /** formatProblemName does the same, except that the first word stays lower-case. */
  lemma CamelNameByWords(title: string)
    ensures CamelName(title) == WordCase(KeepNameChars(title), true, false)
  {
    WordCaseOfSplit(KeepNameChars(title));
  }

  /**
   * Up to case, the function name and the class name are both the filtered title without
   * its spaces: the two transforms differ only in which letters they capitalise.
   */
  lemma NamesAgreeUpToCase(title: string)
    ensures ToLower(CamelName(title)) == ToLower(ClassName(title))
    ensures ToLower(ClassName(title)) == ToLower(WithoutSpaces(KeepNameChars(title)))
  {
    ClassNameByWords(title);
    CamelNameByWords(title);
    WordCaseLower(KeepNameChars(title), true, true);
    WordCaseLower(KeepNameChars(title), true, false);
  }

  lemma {:induction false} CapitalizeAllChars(ws: seq<string>)
    requires forall k, i :: 0 <= k < |ws| && 0 <= i < |ws[k]| ==> IsNameChar(ws[k][i]) && ws[k][i] != ' '
    ensures forall i :: 0 <= i < |CapitalizeAll(ws)| ==> IsNameChar(CapitalizeAll(ws)[i]) && CapitalizeAll(ws)[i] != ' '
  {
    if |ws| > 0 {
      CapitalizeAllChars(ws[1..]);
      var w := ws[0];
      assert forall i :: 0 <= i < |w| ==> IsNameChar(w[i]) && w[i] != ' ';
    }
  }

  /**
   * The class name holds only ASCII letters, digits and whitespace other than the space
   * character; in particular it never holds '_' or '.'.
   */
  lemma ClassNameChars(title: string)
    ensures forall i :: 0 <= i < |ClassName(title)| ==>
      IsNameChar(ClassName(title)[i]) && ClassName(title)[i] != ' '
    ensures '_' !in ClassName(title) && '.' !in ClassName(title)
  {
    var s := KeepNameChars(title);
    SplitFields(s, ' ', IsNameChar);
    CapitalizeAllChars(Words(title));
    assert !IsNameChar('_') && !IsNameChar('.');
  }

  /** The snake-case stem holds only lower-case ASCII letters, digits and '_'. */
  lemma SnakeNameChars(title: string)
    ensures forall i :: 0 <= i < |SnakeName(title)| ==>
      IsLower(SnakeName(title)[i]) || IsDigit(SnakeName(title)[i]) || SnakeName(title)[i] == '_'
  {
    var s := ToLower(KeepNameChars(title));
    var P := (c: char) => IsLower(c) || IsDigit(c) || IsSpace(c);
    assert forall i :: 0 <= i < |s| ==> P(s[i]);
    SplitOnSpaceRunsFields(s, P);
    var Q := (c: char) => IsLower(c) || IsDigit(c) || c == '_';
    var parts := SplitOnSpaceRuns(s);
    assert forall k, i :: 0 <= k < |parts| && 0 <= i < |parts[k]| ==> Q(parts[k][i]);
    JoinChars(parts, "_", Q);
  }

  /**
   * A character-by-character reading of split(/\s+/).join('_'): every maximal run of
   * whitespace becomes one '_', and every other character is kept.
   */
  function CollapseSpaceRuns(s: string): (r: string)
    ensures forall i :: 0 <= i < |r| ==> !IsSpace(r[i])
    ensures (forall i :: 0 <= i < |s| ==> !IsSpace(s[i])) ==> r == s
    decreases |s|
  {
    if |s| == 0 then ""
    else if IsSpace(s[0]) then "_" + CollapseSpaceRuns(DropSpaces(s))
    else
      assert forall i :: 0 <= i < |s[1..]| ==> s[1..][i] == s[i + 1];
      [s[0]] + CollapseSpaceRuns(s[1..])
  }

  /** Putting a character in front of the first field puts it in front of the joined text. */
  lemma JoinConsHead(c: char, parts: seq<string>, sep: string)
    requires |parts| >= 1
    ensures Join([[c] + parts[0]] + parts[1..], sep) == [c] + Join(parts, sep)
  {
    var ps := [[c] + parts[0]] + parts[1..];
    assert ps[1..] == parts[1..];
  }

  /** split(/\s+/) followed by join('_') is the run-collapsing scan. */
  lemma {:induction false} JoinSplitOnSpaceRuns(s: string)
    ensures Join(SplitOnSpaceRuns(s), "_") == CollapseSpaceRuns(s)
    decreases |s|
  {
    if |s| > 0 {
      if IsSpace(s[0]) {
        var rest := SplitOnSpaceRuns(DropSpaces(s));
        JoinSplitOnSpaceRuns(DropSpaces(s));
        assert SplitOnSpaceRuns(s) == [""] + rest;
        assert ([""] + rest)[1..] == rest;
      } else {
        var rest := SplitOnSpaceRuns(s[1..]);
        JoinSplitOnSpaceRuns(s[1..]);
        JoinConsHead(s[0], rest, "_");
      }
    }
  }

  /**
   * formatSnakeCase lower-cases the filtered title and turns every whitespace run into a
   * single '_'.
   */
  lemma SnakeNameByRuns(title: string)
    ensures SnakeName(title) == CollapseSpaceRuns(ToLower(KeepNameChars(title)))
  {
    JoinSplitOnSpaceRuns(ToLower(KeepNameChars(title)));
  }

  /** A space ends a word: the scan of what follows starts a new, capitalised word. */
  lemma {:induction false} WordCaseAtSpace(a: string, b: string, atStart: bool, capital: bool)
    requires ' ' !in a
    ensures WordCase(a + " " + b, atStart, capital) == WordCase(a, atStart, capital) + WordCase(b, true, true)
  {
    if |a| == 0 {
      assert a + " " + b == " " + b;
      WordCaseSpaceHead(b, atStart, capital);
    } else {
      var t := a[1..] + " " + b;
      assert ' ' !in a[1..];
      WordCaseAtSpace(a[1..], b, false, capital);
      ConsAround(a, " ", b);
      WordCaseCharHead(a[0], t, atStart, capital);
      var c := if atStart && capital then ToUpperChar(a[0]) else ToLowerChar(a[0]);
      WordCaseCharHead(a[0], a[1..], atStart, capital);
      assert a == [a[0]] + a[1..];
      AppendAssoc([c], WordCase(a[1..], false, capital), WordCase(b, true, true));
    }
  }

  /** A leading space is dropped and starts a capitalised word. */
  lemma WordCaseSpaceHead(b: string, atStart: bool, capital: bool)
    ensures WordCase(" " + b, atStart, capital) == WordCase(b, true, true)
  {
    assert (" " + b)[0] == ' ' && (" " + b)[1..] == b;
  }

  /** A leading character other than a space is cased by the flags and kept. */
  lemma WordCaseCharHead(c: char, t: string, atStart: bool, capital: bool)
    requires c != ' '
    ensures WordCase([c] + t, atStart, capital) ==
              [if atStart && capital then ToUpperChar(c) else ToLowerChar(c)] + WordCase(t, false, capital)
  {
    assert ([c] + t)[0] == c && ([c] + t)[1..] == t;
  }

  /** A word without spaces: its first character decided by the flags, the rest lower-cased. */
  lemma {:induction false} WordCaseOfWord(w: string, atStart: bool, capital: bool)
    requires |w| > 0 && ' ' !in w
    ensures WordCase(w, atStart, capital) ==
      [if atStart && capital then ToUpperChar(w[0]) else ToLowerChar(w[0])] + ToLower(w[1..])
  {
    if |w| > 1 {
      assert ' ' !in w[1..];
      WordCaseOfWord(w[1..], false, capital);
      assert w[1..][1..] == w[2..];
      LowerHead(w[1..]);
    } else {
      assert WordCase(w[1..], false, capital) == "";
    }
  }

  /** A space after a space-free part becomes one '_' when no whitespace follows it. */
  lemma {:induction false} CollapseAtSpace(a: string, b: string)
    requires forall i :: 0 <= i < |a| ==> !IsSpace(a[i])
    requires |b| == 0 || !IsSpace(b[0])
    ensures CollapseSpaceRuns(a + " " + b) == a + "_" + CollapseSpaceRuns(b)
    decreases |a|
  {
    if |a| == 0 {
      assert a + " " + b == " " + b && a + "_" == "_";
      CollapseLeadingSpace(b);
    } else {
      var t := a[1..] + " " + b;
      CollapseAtSpace(a[1..], b);
      ConsAround(a, " ", b);
      CollapseKeepsHead(a[0], t);
      ConsAround(a, "_", CollapseSpaceRuns(b));
    }
  }

  /** Putting the first character back in front of the rest of `a`, around a middle part. */
  lemma ConsAround(a: string, m: string, x: string)
    requires |a| > 0
    ensures [a[0]] + (a[1..] + m + x) == a + m + x
  {
    assert a == [a[0]] + a[1..];
  }

  /** One space before text that does not start with whitespace becomes one '_'. */
  lemma CollapseLeadingSpace(b: string)
    requires |b| == 0 || !IsSpace(b[0])
    ensures CollapseSpaceRuns(" " + b) == "_" + CollapseSpaceRuns(b)
  {
    var s := " " + b;
    assert s[0] == ' ' && s[1..] == b;
    assert DropSpaces(s) == DropSpaces(b);
  }

  /** A character other than whitespace is kept in front of the rest. */
  lemma CollapseKeepsHead(c: char, t: string)
    requires !IsSpace(c)
    ensures CollapseSpaceRuns([c] + t) == [c] + CollapseSpaceRuns(t)
  {
    var s := [c] + t;
    assert s[0] == c && s[1..] == t;
  }


  /** Joining two filtered parts around a space: the filter keeps both and the space. */
  lemma KeepAroundSpace(a: string, b: string)
    requires KeepNameChars(a) == a && KeepNameChars(b) == b
    ensures KeepNameChars(a + " " + b) == a + " " + b
  {
    KeepNameCharsAppend(a, " " + b);
    KeepNameCharsAppend(" ", b);
    assert IsNameChar(' ');
  }

  /** A word of the tests' titles: ASCII letters and digits only. */
  predicate IsWord(w: string) {
    |w| > 0 && forall i :: 0 <= i < |w| ==> IsAlnum(w[i])
  }

  lemma LowerWord(w: string)
    requires IsWord(w)
    ensures IsWord(ToLower(w))
  {
  }

  /** A title of one word of letters and digits. */
  lemma OneWordTitle(w: string)
    requires IsWord(w)
    ensures ClassName(w) == Capitalize(w)
    ensures CamelName(w) == ToLower(w)
    ensures SnakeName(w) == ToLower(w)
  {
    OneWordCase(w);
    OneWordSnake(w);
  }

  lemma OneWordCase(w: string)
    requires IsWord(w)
    ensures ClassName(w) == Capitalize(w)
    ensures CamelName(w) == ToLower(w)
  {
    assert KeepNameChars(w) == w;
    assert ' ' !in w by {
      assert forall i :: 0 <= i < |w| ==> IsAlnum(w[i]);
    }
    ClassNameByWords(w);
    CamelNameByWords(w);
    WordCaseOfWord(w, true, true);
    WordCaseOfWord(w, true, false);
    LowerHead(w);
  }

  lemma OneWordSnake(w: string)
    requires IsWord(w)
    ensures SnakeName(w) == ToLower(w)
  {
    assert KeepNameChars(w) == w;
    SnakeNameByRuns(w);
    LowerWord(w);
    WordHasNoSpace(ToLower(w));
  }

  /**
   * A title read one word at a time: a leading word of letters and digits, a space, and a
   * filtered rest that starts with a name character other than whitespace. The word is
   * capitalised in the class name, lower-cased in the function name, and joined by '_' in
   * the snake-case name.
   */
  lemma WordThenTitle(a: string, t: string)
    requires IsWord(a) && KeepNameChars(t) == t && |t| > 0 && !IsSpace(t[0])
    ensures ClassName(a + " " + t) == Capitalize(a) + ClassName(t)
    ensures CamelName(a + " " + t) == ToLower(a) + ClassName(t)
    ensures SnakeName(a + " " + t) == ToLower(a) + "_" + SnakeName(t)
  {
    WordThenTitleClass(a, t);
    WordThenTitleCamel(a, t);
    WordThenTitleSnake(a, t);
  }

  lemma WordThenTitleClass(a: string, t: string)
    requires IsWord(a) && KeepNameChars(t) == t
    ensures ClassName(a + " " + t) == Capitalize(a) + ClassName(t)
  {
    assert KeepNameChars(a) == a;
    KeepAroundSpace(a, t);
    ClassNameByWords(t);
    WordThenTitleCase(a, t, true);
    ClassNameByWords(a + " " + t);
  }

  lemma WordThenTitleCamel(a: string, t: string)
    requires IsWord(a) && KeepNameChars(t) == t
    ensures CamelName(a + " " + t) == ToLower(a) + ClassName(t)
  {
    assert KeepNameChars(a) == a;
    KeepAroundSpace(a, t);
    ClassNameByWords(t);
    WordThenTitleCase(a, t, false);
    CamelNameByWords(a + " " + t);
  }

  lemma WordThenTitleCase(a: string, t: string, capital: bool)
    requires IsWord(a)
    ensures WordCase(a + " " + t, true, capital) ==
      (if capital then Capitalize(a) else ToLower(a)) + WordCase(t, true, true)
  {
    assert ' ' !in a by {
      assert forall i :: 0 <= i < |a| ==> IsAlnum(a[i]);
    }
    WordCaseAtSpace(a, t, true, capital);
    WordCaseOfWord(a, true, capital);
    LowerHead(a);
  }

  lemma WordThenTitleSnake(a: string, t: string)
    requires IsWord(a) && KeepNameChars(t) == t && |t| > 0 && !IsSpace(t[0])
    ensures SnakeName(a + " " + t) == ToLower(a) + "_" + SnakeName(t)
  {
    var s := a + " " + t;
    assert KeepNameChars(a) == a;
    KeepAroundSpace(a, t);
    SnakeNameByRuns(s);
    SnakeNameByRuns(t);
    LowerAroundSpace(a, t);
    CollapseAfterWord(a, t);
  }

  lemma LowerAroundSpace(a: string, t: string)
    ensures ToLower(a + " " + t) == ToLower(a) + " " + ToLower(t)
  {
    LowerAppend(a + " ", t);
    LowerAppend(a, " ");
    assert ToLower(" ") == " ";
  }

  lemma CollapseAfterWord(a: string, t: string)
    requires IsWord(a) && |t| > 0 && IsNameChar(t[0]) && !IsSpace(t[0])
    ensures CollapseSpaceRuns(ToLower(a) + " " + ToLower(t)) == ToLower(a) + "_" + CollapseSpaceRuns(ToLower(t))
  {
    var la, lt := ToLower(a), ToLower(t);
    LowerWord(a);
    WordHasNoSpace(la);
    assert !IsSpace(lt[0]);
    CollapseAtSpace(la, lt);
  }

  lemma WordHasNoSpace(w: string)
    requires IsWord(w)
    ensures forall i :: 0 <= i < |w| ==> !IsSpace(w[i])
  {
    forall i | 0 <= i < |w|
      ensures !IsSpace(w[i])
    {
      assert IsAlnum(w[i]);
    }
  }

  lemma LowerAppend(x: string, y: string)
    ensures ToLower(x + y) == ToLower(x) + ToLower(y)
  {
  }

  /** A title of two words of letters and digits. */
  lemma TwoWordTitle(a: string, b: string)
    requires IsWord(a) && IsWord(b)
    ensures ClassName(a + " " + b) == Capitalize(a) + Capitalize(b)
    ensures CamelName(a + " " + b) == ToLower(a) + Capitalize(b)
    ensures SnakeName(a + " " + b) == ToLower(a) + "_" + ToLower(b)
  {
    assert KeepNameChars(b) == b;
    OneWordTitle(b);
    WordThenTitle(a, b);
  }

  /** A title of three words of letters and digits. */
  lemma ThreeWordTitle(a: string, b: string, c: string)
    requires IsWord(a) && IsWord(b) && IsWord(c)
    ensures ClassName(a + " " + (b + " " + c)) == Capitalize(a) + (Capitalize(b) + Capitalize(c))
    ensures SnakeName(a + " " + (b + " " + c)) == ToLower(a) + "_" + (ToLower(b) + "_" + ToLower(c))
  {
    var bc := b + " " + c;
    assert KeepNameChars(bc) == bc && |bc| > 0 && !IsSpace(bc[0]) by {
      assert KeepNameChars(b) == b && KeepNameChars(c) == c;
      KeepAroundSpace(b, c);
      assert bc[0] == b[0] && IsAlnum(b[0]);
    }
    TwoWordTitle(b, c);
    WordThenTitleClass(a, bc);
    WordThenTitleSnake(a, bc);
  }

  // The examples of the test suite: "Two Sum" is the words "Two" and "Sum", and
  // "Roman to Integer" the words "Roman", "to" and "Integer".

  lemma TwoSumWords(a: string, b: string)
    requires a == "Two" && b == "Sum"
    ensures IsWord(a) && IsWord(b)
    ensures Capitalize(a) == "Two" && Capitalize(b) == "Sum"
    ensures ToLower(a) == "two" && ToLower(b) == "sum"
  {
  }

  lemma TwoSumNames(a: string, b: string)
    requires a == "Two" && b == "Sum"
    ensures CamelName(a + " " + b) == "twoSum"
    ensures ClassName(a + " " + b) == "TwoSum"
    ensures SnakeName(a + " " + b) == "two_sum"
  {
    TwoSumWords(a, b);
    TwoWordTitle(a, b);
  }

  lemma RomanToIntegerWords(a: string, b: string, c: string)
    requires a == "Roman" && b == "to" && c == "Integer"
    ensures IsWord(a) && IsWord(b) && IsWord(c)
    ensures Capitalize(a) == "Roman" && Capitalize(b) == "To" && Capitalize(c) == "Integer"
    ensures ToLower(a) == "roman" && ToLower(b) == "to" && ToLower(c) == "integer"
  {
  }

  lemma RomanToIntegerNames(a: string, b: string, c: string)
    requires a == "Roman" && b == "to" && c == "Integer"
    ensures ClassName(a + " " + (b + " " + c)) == "RomanToInteger"
    ensures SnakeName(a + " " + (b + " " + c)) == "roman_to_integer"
  {
    RomanToIntegerWords(a, b, c);
    ThreeWordTitle(a, b, c);
    RomanToIntegerJoined(Capitalize(a), Capitalize(b), Capitalize(c), ToLower(a), ToLower(b), ToLower(c));
  }

  lemma RomanToIntegerJoined(x: string, y: string, z: string, lx: string, ly: string, lz: string)
    requires x == "Roman" && y == "To" && z == "Integer"
    requires lx == "roman" && ly == "to" && lz == "integer"
    ensures x + (y + z) == "RomanToInteger"
    ensures lx + "_" + (ly + "_" + lz) == "roman_to_integer"
  {
  }

  /** padStart(4, '0') on the problem's front-end id: "1" becomes "0001". */
  function PaddedId(id: string): (r: string)
    ensures |r| == if |id| >= 4 then |id| else 4
    ensures r == Repeat('0', |r| - |id|) + id
    ensures |id| >= 4 ==> r == id
  {
    PadStart(id, 4, '0')
  }

  /** Padding a padded id changes nothing. */
  lemma PaddedIdIdempotent(id: string)
    ensures PaddedId(PaddedId(id)) == PaddedId(id)
  {
  }

  /** Padding keeps the number: the id is the padded id with its leading zeros removed. */
  lemma {:induction false} PaddedIdKeepsDigits(id: string)
    requires |id| > 0 && id[0] != '0'
    ensures DropZeros(PaddedId(id)) == id
  {
    var r := PaddedId(id);
    DropZerosOfZeros(|r| - |id|, id);
  }

  /** Removes leading '0' characters. */
  function DropZeros(s: string): string {
    if |s| > 0 && s[0] == '0' then DropZeros(s[1..]) else s
  }

  lemma {:induction false} DropZerosOfZeros(n: nat, s: string)
    requires |s| == 0 || s[0] != '0'
    ensures DropZeros(Repeat('0', n) + s) == s
  {
    if n > 0 {
      assert (Repeat('0', n) + s)[1..] == Repeat('0', n - 1) + s;
      DropZerosOfZeros(n - 1, s);
    }
  }
}
