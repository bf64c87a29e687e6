/**
 * cleanDescription: the problem statement arrives as HTML; the CLI deletes every `<…>`
 * tag, decodes eleven named and numeric character references (the `&amp;` one last, so that
 * an escaped reference such as `&amp;lt;` ends as the text `&lt;`), and trims whitespace.
 */
module Description {
  import opened Strings

  /** The index of the first `c` in `s`. */
  function IndexOf(s: string, c: char): (k: nat)
    requires c in s
    ensures k < |s| && s[k] == c && c !in s[..k]
  {
    if s[0] == c then 0 else 1 + IndexOf(s[1..], c)
  }

  /**
   * `.replace(/<[^>]*>/g, '')`: a '<' that has a '>' somewhere after it starts a tag that
   * runs to the first such '>' and is deleted; a '<' with no '>' after it is kept.
   */
  function StripTags(s: string): (r: string)
    ensures forall i :: 0 <= i < |r| ==> r[i] in s
    ensures forall i, j :: 0 <= i < j < |r| && r[i] == '<' ==> r[j] != '>'
    ensures '<' !in s ==> r == s
    decreases |s|
  {
    if |s| == 0 then ""
    else if s[0] == '<' && '>' in s then
      var k := IndexOf(s, '>');
      StripTags(s[k + 1..])
    else
      var rest := StripTags(s[1..]);
      assert forall i :: 0 <= i < |rest| ==> rest[i] in s[1..];
      assert '<' !in s ==> s == [s[0]] + s[1..];
      [s[0]] + rest
  }

  /** A complete tag as the pattern `<[^>]*>` matches it: '<', no '>', then '>'. */
  predicate IsTag(t: string) {
    |t| >= 2 && t[0] == '<' && t[|t| - 1] == '>' && '>' !in t[1..|t| - 1]
  }

  /** Text without '<' is kept as it stands in front of what follows. */
  lemma {:induction false} StripTagsKeepsText(a: string, b: string)
    requires '<' !in a
    ensures StripTags(a + b) == a + StripTags(b)
    decreases |a|
  {
    if |a| > 0 {
      var s := a + b;
      assert s[0] == a[0] && s[1..] == a[1..] + b;
      StripTagsKeepsText(a[1..], b);
      assert a == [a[0]] + a[1..];
    } else {
      assert a + b == b;
    }
  }

  /** A `c` with no `c` in front of it is the one IndexOf finds. */
  lemma {:induction false} IndexOfFirst(s: string, c: char, e: nat)
    requires e < |s| && s[e] == c && c !in s[..e]
    ensures IndexOf(s, c) == e
    decreases e
  {
    if e > 0 {
      assert s[0] in s[..e];
      assert s[1..][..e - 1] == s[1..e];
      IndexOfFirst(s[1..], c, e - 1);
    }
  }

  /** A whole tag is deleted, and what follows it is cleaned on its own. */
  lemma StripTagsDropsTag(t: string, b: string)
    requires IsTag(t)
    ensures StripTags(t + b) == StripTags(b)
  {
    var s, e := t + b, |t| - 1;
    assert s[0] == '<' && s[e] == '>';
    assert s[..e] == [t[0]] + t[1..e];
    IndexOfFirst(s, '>', e);
    assert s[e + 1..] == b;
  }

  /** A '<' that no '>' follows is not a tag and is kept. */
  lemma StripTagsKeepsUnclosed(b: string)
    requires '>' !in b
    ensures StripTags("<" + b) == "<" + StripTags(b)
  {
    var s := "<" + b;
    assert s == ['<'] + b;
    assert s[0] == '<' && s[1..] == b;
  }

  /** The eleven references, in the order they are decoded. */
  function DecodeEntities(s: string): string {
    var s1 := ReplaceAll(s, "&nbsp;", " ");
    var s2 := ReplaceAll(s1, "&lt;", "<");
    var s3 := ReplaceAll(s2, "&gt;", ">");
    var s4 := ReplaceAll(s3, "&quot;", "\"");
    var s5 := ReplaceAll(s4, "&#39;", "'");
    var s6 := ReplaceAll(s5, "&apos;", "'");
    var s7 := ReplaceAll(s6, "&ldquo;", "\"");
    var s8 := ReplaceAll(s7, "&rdquo;", "\"");
    var s9 := ReplaceAll(s8, "&lsquo;", "'");
    var s10 := ReplaceAll(s9, "&rsquo;", "'");
    ReplaceAll(s10, "&amp;", "&")
  }

  /** cleanDescription: tags stripped, references decoded, whitespace trimmed. */
  function CleanDescription(html: string): string {
    Trim(DecodeEntities(StripTags(html)))
  }

  /** Text without '&' holds no reference and comes back unchanged. */
  lemma DecodeEntitiesPlain(s: string)
    requires '&' !in s
    ensures DecodeEntities(s) == s
  {
    NoAmpUnchanged(s, "&nbsp;", " ");
    NoAmpUnchanged(s, "&lt;", "<");
    NoAmpUnchanged(s, "&gt;", ">");
    NoAmpUnchanged(s, "&quot;", "\"");
    NoAmpUnchanged(s, "&#39;", "'");
    NoAmpUnchanged(s, "&apos;", "'");
    NoAmpUnchanged(s, "&ldquo;", "\"");
    NoAmpUnchanged(s, "&rdquo;", "\"");
    NoAmpUnchanged(s, "&lsquo;", "'");
    NoAmpUnchanged(s, "&rsquo;", "'");
    NoAmpUnchanged(s, "&amp;", "&");
  }

  /** Text with neither markup nor references only loses its surrounding whitespace. */
  lemma CleanDescriptionPlain(html: string)
    requires '<' !in html && '&' !in html
    ensures CleanDescription(html) == Trim(html)
  {
    DecodeEntitiesPlain(html);
  }

  /** A reference pass finds nothing in text without '&'. */
  lemma NoAmpUnchanged(s: string, p: string, v: string)
    requires |p| > 0 && p[0] == '&'
    ensures '&' !in s ==> ReplaceAll(s, p, v) == s
  {
    if '&' !in s {
      ReplaceAllSkipsPrefix(s, "", p, v);
      assert s + "" == s;
    }
  }

  /** Text that neither starts nor ends with whitespace is its own trim. */
  lemma TrimPlain(s: string)
    requires |s| > 0 ==> !IsSpace(s[0]) && !IsSpace(s[|s| - 1])
    ensures Trim(s) == s
  {
  }

  /**
   * A paragraph in the shape of the test suite's description: text around two `<code>`
   * elements inside one `<p>` element. The tags go and the text is kept in order.
   */
  lemma StripParagraph(p: string, code: string, endCode: string, endP: string,
                       a: string, b: string, c: string, d: string, e: string)
    requires IsTag(p) && IsTag(code) && IsTag(endCode) && IsTag(endP)
    requires '<' !in a && '<' !in b && '<' !in c && '<' !in d && '<' !in e
    ensures StripTags(p + (a + (code + (b + (endCode + (c + (code + (d + (endCode + (e + endP))))))))))
            == a + (b + (c + (d + e)))
  {
    var t9 := e + endP;
    StripTagsKeepsText(e, endP);
    StripTagsDropsTag(endP, "");
    assert endP + "" == endP && e + "" == e;
    var t8 := endCode + t9;
    StripTagsDropsTag(endCode, t9);
    var t7 := d + t8;
    StripTagsKeepsText(d, t8);
    var t6 := code + t7;
    StripTagsDropsTag(code, t7);
    var t5 := c + t6;
    StripTagsKeepsText(c, t6);
    var t4 := endCode + t5;
    StripTagsDropsTag(endCode, t5);
    var t3 := b + t4;
    StripTagsKeepsText(b, t4);
    var t2 := code + t3;
    StripTagsDropsTag(code, t3);
    var t1 := a + t2;
    StripTagsKeepsText(a, t2);
    StripTagsDropsTag(p, t1);
  }

  // The description of the test suite: "<p>Given an array of integers <code>nums</code> and an
  // integer <code>target</code>, return indices.</p>", split into its tags and texts.

  lemma TestDescriptionTags(p: string, code: string, endCode: string, endP: string)
    requires p == "<p>" && code == "<code>" && endCode == "</code>" && endP == "</p>"
    ensures IsTag(p) && IsTag(code) && IsTag(endCode) && IsTag(endP)
  {
  }

  /** Text free of markup and references. */
  predicate IsPlain(t: string) {
    '<' !in t && '&' !in t
  }

  lemma PlainAppend(a: string, b: string)
    requires IsPlain(a) && IsPlain(b)
    ensures IsPlain(a + b)
  {
    assert forall c :: c in a + b ==> c in a || c in b;
  }

  lemma GivenPlain(a: string)
    requires a == "Given an array of integers "
    ensures IsPlain(a) && !IsSpace(a[0])
  {
  }

  lemma NumsPlain(b: string)
    requires b == "nums"
    ensures IsPlain(b)
  {
  }

  lemma IntegerPlain(c: string)
    requires c == " and an integer "
    ensures IsPlain(c)
  {
  }

  lemma TargetPlain(d: string)
    requires d == "target"
    ensures IsPlain(d)
  {
  }

  lemma IndicesPlain(e: string)
    requires e == ", return indices."
    ensures IsPlain(e) && !IsSpace(e[|e| - 1])
  {
  }

  /** The test suite's description cleans to its plain sentence. */
  lemma CleanTestDescription(p: string, code: string, endCode: string, endP: string,
                             a: string, b: string, c: string, d: string, e: string)
    requires p == "<p>" && code == "<code>" && endCode == "</code>" && endP == "</p>"
    requires a == "Given an array of integers " && b == "nums" && c == " and an integer " && d == "target"
    requires e == ", return indices."
    ensures CleanDescription(p + (a + (code + (b + (endCode + (c + (code + (d + (endCode + (e + endP))))))))))
            == "Given an array of integers " + ("nums" + (" and an integer " + ("target" + ", return indices.")))
  {
    TestDescriptionTags(p, code, endCode, endP);
    GivenPlain(a);
    NumsPlain(b);
    IntegerPlain(c);
    TargetPlain(d);
    IndicesPlain(e);
    StripParagraph(p, code, endCode, endP, a, b, c, d, e);
    PlainAppend(d, e);
    PlainAppend(c, d + e);
    PlainAppend(b, c + (d + e));
    var t := a + (b + (c + (d + e)));
    PlainAppend(a, b + (c + (d + e)));
    assert t[0] == a[0] && t[|t| - 1] == e[|e| - 1];
    TrimPlain(t);
    CleanDescriptionPlain(t);
  }

  // ---------------------------------------------------------------------------
  // Round trip with HTML escaping
  // ---------------------------------------------------------------------------

  /** The characters an HTML escaper replaces by a character reference. */
  const Escaped: set<char> := {'&', '<', '>', '"', '\''}

  /** The reference an escaper writes for each escaped character. */
  function Ref(c: char): string {
    if c == '&' then "&amp;"
    else if c == '<' then "&lt;"
    else if c == '>' then "&gt;"
    else if c == '"' then "&quot;"
    else "&#39;"
  }

  /** Escapes the characters of `t` that are in `S` (a subset of `Escaped`). */
  function EscapeWith(t: string, S: set<char>): string {
    if |t| == 0 then ""
    else (if t[0] in S then Ref(t[0]) else [t[0]]) + EscapeWith(t[1..], S)
  }

  /** HTML escaping of text: `&`, `<`, `>`, `"` and `'`. */
  function Escape(t: string): string {
    EscapeWith(t, Escaped)
  }

  /** Two references that start alike but part before either ends. */
  predicate Diverge(a: string, b: string) {
    exists i :: 0 <= i < |a| && i < |b| && a[i] != b[i]
  }

  /** A reference followed by more text is copied through when it cannot start `p`. */
  lemma SkipRef(e: string, rest: string, p: string, v: string)
    requires |e| > 0 && e[0] == '&' && '&' !in e[1..]
    requires |p| > 0 && p[0] == '&' && Diverge(e, p)
    ensures ReplaceAll(e + rest, p, v) == e + ReplaceAll(rest, p, v)
  {
    var i :| 0 <= i < |e| && i < |p| && e[i] != p[i];
    assert (e + rest)[i] == e[i];
    assert !StartsWith(e + rest, p);
    assert (e + rest)[1..] == e[1..] + rest;
    ReplaceAllSkipsPrefix(e[1..], rest, p, v);
    assert e == [e[0]] + e[1..];
  }

  lemma RefShape(c: char)
    requires c in Escaped
    ensures |Ref(c)| > 0 && Ref(c)[0] == '&' && '&' !in Ref(c)[1..]
  {
  }

  /** Two distinct escaped characters have references that part early. */
  lemma RefsDiverge(c: char, d: char)
    requires c in Escaped && d in Escaped && c != d
    ensures Diverge(Ref(d), Ref(c))
  {
    assert Ref(d)[1] != Ref(c)[1];
  }

  /**
   * Decoding the reference of one escaped character `c`, while `&` is still escaped,
   * un-escapes exactly that character.
   */
  lemma {:induction false} DecodeOne(t: string, S: set<char>, c: char)
    requires S <= Escaped && '&' in S && c in S && c != '&'
    ensures ReplaceAll(EscapeWith(t, S), Ref(c), [c]) == EscapeWith(t, S - {c})
  {
    if |t| > 0 {
      var rest := EscapeWith(t[1..], S);
      DecodeOne(t[1..], S, c);
      RefShape(c);
      if t[0] == c {
        assert (Ref(c) + rest)[|Ref(c)|..] == rest;
        assert StartsWith(Ref(c) + rest, Ref(c));
      } else if t[0] in S {
        RefShape(t[0]);
        RefsDiverge(c, t[0]);
        SkipRef(Ref(t[0]), rest, Ref(c), [c]);
      } else {
        assert ([t[0]] + rest)[0] != '&';
        assert ([t[0]] + rest)[1..] == rest;
      }
    }
  }

  /** The last pass turns text with only `&` escaped back into the text. */
  lemma {:induction false} DecodeAmp(t: string)
    ensures ReplaceAll(EscapeWith(t, {'&'}), "&amp;", "&") == t
  {
    if |t| > 0 {
      var rest := EscapeWith(t[1..], {'&'});
      DecodeAmp(t[1..]);
      if t[0] == '&' {
        assert ("&amp;" + rest)[5..] == rest;
        assert StartsWith("&amp;" + rest, "&amp;");
      } else {
        assert ([t[0]] + rest)[1..] == rest;
      }
      assert t == [t[0]] + t[1..];
    }
  }

  /** A reference no escaper writes finds nothing to decode while `&` is escaped. */
  lemma {:induction false} ForeignRefAbsent(t: string, S: set<char>, p: string, v: string)
    requires S <= Escaped && '&' in S
    requires |p| > 0 && p[0] == '&' && forall c :: c in Escaped ==> Diverge(Ref(c), p)
    ensures ReplaceAll(EscapeWith(t, S), p, v) == EscapeWith(t, S)
  {
    if |t| > 0 {
      var rest := EscapeWith(t[1..], S);
      ForeignRefAbsent(t[1..], S, p, v);
      if t[0] in S {
        RefShape(t[0]);
        SkipRef(Ref(t[0]), rest, p, v);
      } else {
        assert ([t[0]] + rest)[0] != '&';
        assert ([t[0]] + rest)[1..] == rest;
      }
    }
  }

  lemma ForeignRefs(p: string)
    requires p in {"&nbsp;", "&apos;", "&ldquo;", "&rdquo;", "&lsquo;", "&rsquo;"}
    ensures |p| > 0 && p[0] == '&' && forall c :: c in Escaped ==> Diverge(Ref(c), p)
  {
    forall c | c in Escaped
      ensures Diverge(Ref(c), p)
    {
      if Ref(c)[1] == p[1] {
        assert Ref(c)[2] != p[2];
      }
    }
  }

  /** The first five passes leave only `&` escaped. */
  lemma DecodeFirstPasses(t: string)
    ensures ReplaceAll(ReplaceAll(ReplaceAll(ReplaceAll(ReplaceAll(Escape(t),
      "&nbsp;", " "), "&lt;", "<"), "&gt;", ">"), "&quot;", "\""), "&#39;", "'")
      == EscapeWith(t, {'&'})
  {
    var S1, S2, S3, S4 := {'&', '>', '"', '\''}, {'&', '"', '\''}, {'&', '\''}, {'&'};
    ForeignRefs("&nbsp;");
    ForeignRefAbsent(t, Escaped, "&nbsp;", " ");
    var e1 := ReplaceAll(Escape(t), "&nbsp;", " ");
    assert e1 == EscapeWith(t, Escaped);
    DecodeOne(t, Escaped, '<');
    assert Ref('<') == "&lt;" && Escaped - {'<'} == S1;
    var e2 := ReplaceAll(e1, "&lt;", "<");
    assert e2 == EscapeWith(t, S1);
    DecodeOne(t, S1, '>');
    assert Ref('>') == "&gt;" && S1 - {'>'} == S2;
    var e3 := ReplaceAll(e2, "&gt;", ">");
    assert e3 == EscapeWith(t, S2);
    DecodeOne(t, S2, '"');
    assert Ref('"') == "&quot;" && S2 - {'"'} == S3;
    var e4 := ReplaceAll(e3, "&quot;", "\"");
    assert e4 == EscapeWith(t, S3);
    DecodeOne(t, S3, '\'');
    assert Ref('\'') == "&#39;" && S3 - {'\''} == S4;
  }

  /** The remaining passes find nothing but `&amp;`, which they decode last. */
  lemma DecodeLastPasses(t: string)
    ensures ReplaceAll(ReplaceAll(ReplaceAll(ReplaceAll(ReplaceAll(ReplaceAll(EscapeWith(t, {'&'}),
      "&apos;", "'"), "&ldquo;", "\""), "&rdquo;", "\""), "&lsquo;", "'"), "&rsquo;", "'"), "&amp;", "&")
      == t
  {
    var S := {'&'};
    ForeignRefs("&apos;");
    ForeignRefAbsent(t, S, "&apos;", "'");
    ForeignRefs("&ldquo;");
    ForeignRefAbsent(t, S, "&ldquo;", "\"");
    ForeignRefs("&rdquo;");
    ForeignRefAbsent(t, S, "&rdquo;", "\"");
    ForeignRefs("&lsquo;");
    ForeignRefAbsent(t, S, "&lsquo;", "'");
    ForeignRefs("&rsquo;");
    ForeignRefAbsent(t, S, "&rsquo;", "'");
    DecodeAmp(t);
  }

  /** Decoding undoes HTML escaping: no reference is decoded twice. */
  lemma DecodeEscape(t: string)
    ensures DecodeEntities(Escape(t)) == t
  {
    DecodeFirstPasses(t);
    DecodeLastPasses(t);
  }

  lemma {:induction false} EscapeHasNoLess(t: string, S: set<char>)
    requires '<' in S
    ensures '<' !in EscapeWith(t, S)
  {
    if |t| > 0 {
      EscapeHasNoLess(t[1..], S);
    }
  }

  /** Cleaning an escaped plain text gives back the trimmed text. */
  lemma CleanEscaped(t: string)
    ensures CleanDescription(Escape(t)) == Trim(t)
  {
    EscapeHasNoLess(t, Escaped);
    DecodeEscape(t);
  }

  /** `&amp;` is decoded last, so an escaped reference comes out as the reference, not as its character. */
  lemma AmpDecodedLast()
    ensures DecodeEntities("&amp;lt;") == "&lt;"
  {
    assert Escape("&lt;") == "&amp;lt;" by {
      assert EscapeWith("", Escaped) == "";
      assert EscapeWith(";", Escaped) == ";";
      assert EscapeWith("t;", Escaped) == "t;";
      assert EscapeWith("lt;", Escaped) == "lt;";
    }
    DecodeEscape("&lt;");
  }
}
