/**
 * Placeholder substitution in exercise and test templates.
 *
 * The CLI substitutes each key with `result.replace(new RegExp(key, 'g'), value)`. With a
 * string as second argument, String.prototype.replace reads `$$`, `$&`, `` $` `` and `$'`
 * in the value as replacement patterns (the key regexps have no capture groups, so every
 * other `$` stays literal). `AsWritten` models that; `Substitute` and the method
 * `ReplaceTemplateVars` model the evidently intended literal insertion, and the two agree
 * whenever no value holds a '$'.
 */
module TemplateVars {
  import opened Strings

  /** One placeholder and its value, in the order the replacement record lists them. */
  type Pair = (string, string)

  /** The keys are non-empty: an empty regular expression would match between all characters. */
  predicate KeysNonEmpty(pairs: seq<Pair>) {
    forall i :: 0 <= i < |pairs| ==> |pairs[i].0| > 0
  }

  // ---------------------------------------------------------------------------
  // String.prototype.replace with a global regular expression and a string value
  // ---------------------------------------------------------------------------

  /**
   * The text that replaces one match: `v` with `$$` read as `$`, `$&` as the match,
   * `` $` `` as the text before it and `$'` as the text after it.
   */
  function Expand(v: string, matched: string, before: string, after: string): (r: string)
    ensures '$' !in v ==> r == v
  {
    if |v| == 0 then ""
    else if v[0] == '$' && |v| >= 2 && v[1] == '$' then "$" + Expand(v[2..], matched, before, after)
    else if v[0] == '$' && |v| >= 2 && v[1] == '&' then matched + Expand(v[2..], matched, before, after)
    else if v[0] == '$' && |v| >= 2 && v[1] == '`' then before + Expand(v[2..], matched, before, after)
    else if v[0] == '$' && |v| >= 2 && v[1] == '\'' then after + Expand(v[2..], matched, before, after)
    else [v[0]] + Expand(v[1..], matched, before, after)
  }

  /** Global replacement of the literal `p` in `s`, scanning from index `i`. */
  function ReplaceFrom(s: string, p: string, v: string, i: nat): string
    requires |p| > 0
    decreases |s| - i
  {
    if i >= |s| then ""
    else if StartsWith(s[i..], p) then Expand(v, p, s[..i], s[i + |p|..]) + ReplaceFrom(s, p, v, i + |p|)
    else [s[i]] + ReplaceFrom(s, p, v, i + 1)
  }

  /** `s.replace(new RegExp(p, 'g'), v)` for a key `p` made of literal characters. */
  function ReplaceAllJs(s: string, p: string, v: string): string
    requires |p| > 0
  {
    ReplaceFrom(s, p, v, 0)
  }

  /** Without '$' in the value, the JavaScript replacement is the literal one. */
  lemma {:induction false} ReplaceFromLiteral(s: string, p: string, v: string, i: nat)
    requires |p| > 0 && '$' !in v && i <= |s|
    ensures ReplaceFrom(s, p, v, i) == ReplaceAll(s[i..], p, v)
    decreases |s| - i
  {
    if i < |s| {
      var t := s[i..];
      if StartsWith(t, p) {
        ReplaceFromLiteral(s, p, v, i + |p|);
        assert t[|p|..] == s[i + |p|..];
        assert ReplaceAll(t, p, v) == v + ReplaceAll(t[|p|..], p, v);
        assert ReplaceFrom(s, p, v, i) == Expand(v, p, s[..i], s[i + |p|..]) + ReplaceFrom(s, p, v, i + |p|);
      } else {
        ReplaceFromLiteral(s, p, v, i + 1);
        assert t[1..] == s[i + 1..];
        assert ReplaceAll(t, p, v) == [t[0]] + ReplaceAll(t[1..], p, v);
        assert ReplaceFrom(s, p, v, i) == [s[i]] + ReplaceFrom(s, p, v, i + 1);
      }
    }
  }

  /** A string in which the key does not occur comes back unchanged, whatever the value. */
  lemma {:induction false} ReplaceFromAbsent(s: string, p: string, v: string, i: nat)
    requires |p| > 0 && i <= |s| && !Contains(s[i..], p)
    ensures ReplaceFrom(s, p, v, i) == s[i..]
    decreases |s| - i
  {
    if i < |s| {
      var t := s[i..];
      assert !StartsWith(t, p);
      assert t[1..] == s[i + 1..];
      ReplaceFromAbsent(s, p, v, i + 1);
      assert t == [s[i]] + s[i + 1..];
    }
  }

  /**
   * The value "$$" is not inserted as written: a template consisting of the key alone
   * becomes "$".
   */
  lemma DoubleDollarCollapses(p: string)
    requires |p| > 0
    ensures ReplaceAllJs(p, p, "$$") == "$"
  {
    assert p[0..] == p && StartsWith(p[0..], p);
    assert ReplaceFrom(p, p, "$$", |p|) == "";
    var dd := "$$";
    assert dd[0] == '$' && dd[1] == '$' && dd[2..] == "";
    assert Expand(dd, p, p[..0], p[|p|..]) == "$";
  }

  // ---------------------------------------------------------------------------
  // replaceTemplateVars
  // ---------------------------------------------------------------------------

  /** The substitution chain as written: each key in order, with `$` patterns honoured. */
  function AsWritten(t: string, pairs: seq<Pair>): string
    requires KeysNonEmpty(pairs)
    decreases |pairs|
  {
    if |pairs| == 0 then t else AsWritten(ReplaceAllJs(t, pairs[0].0, pairs[0].1), pairs[1..])
  }

  /** The intended chain: each key in order, every occurrence replaced by the value verbatim. */
  function Substitute(t: string, pairs: seq<Pair>): string
    requires KeysNonEmpty(pairs)
    decreases |pairs|
  {
    if |pairs| == 0 then t else Substitute(ReplaceAll(t, pairs[0].0, pairs[0].1), pairs[1..])
  }

  /** Applying a prefix of the pairs and then the next pair is applying the longer prefix. */
  lemma {:induction false} SubstituteStep(t: string, pairs: seq<Pair>, k: nat)
    requires KeysNonEmpty(pairs) && k < |pairs|
    ensures Substitute(t, pairs[..k + 1]) ==
      ReplaceAll(Substitute(t, pairs[..k]), pairs[k].0, pairs[k].1)
    decreases k
  {
    if k > 0 {
      var t' := ReplaceAll(t, pairs[0].0, pairs[0].1);
      assert pairs[..k + 1][1..] == pairs[1..][..k];
      assert pairs[..k][1..] == pairs[1..][..k - 1];
      SubstituteStep(t', pairs[1..], k - 1);
    }
  }

  /** replaceTemplateVars: the loop over the record's entries. */
  method ReplaceTemplateVars(template: string, pairs: seq<Pair>) returns (result: string)
    requires KeysNonEmpty(pairs)
    ensures result == Substitute(template, pairs)
  {
    result := template;
    var k := 0;
    while k < |pairs|
      invariant 0 <= k <= |pairs|
      invariant result == Substitute(template, pairs[..k])
    {
      SubstituteStep(template, pairs, k);
      result := ReplaceAll(result, pairs[k].0, pairs[k].1);
      k := k + 1;
    }
    assert pairs[..|pairs|] == pairs;
  }

  predicate NoDollar(pairs: seq<Pair>) {
    forall i :: 0 <= i < |pairs| ==> '$' !in pairs[i].1
  }

  /**
   * The chain as written and the intended chain part on the smallest template holding a
   * key whose value is "$$": the intended chain inserts "$$", the chain as written "$".
   */
  lemma AsWrittenDiffersOnDoubleDollar(key: string)
    requires |key| > 0
    ensures AsWritten(key, [(key, "$$")]) == "$"
    ensures Substitute(key, [(key, "$$")]) == "$$"
  {
    var pairs := [(key, "$$")];
    assert pairs[1..] == [];
    DoubleDollarCollapses(key);
    ReplaceAllAround("", key, "", "$$");
    assert "" + key + "" == key;
  }

  /** The chain as written and the intended chain agree when no value holds a '$'. */
  lemma {:induction false} AsWrittenIsSubstituteWithoutDollar(t: string, pairs: seq<Pair>)
    requires KeysNonEmpty(pairs) && NoDollar(pairs)
    ensures AsWritten(t, pairs) == Substitute(t, pairs)
    decreases |pairs|
  {
    if |pairs| > 0 {
      ReplaceFromLiteral(t, pairs[0].0, pairs[0].1, 0);
      assert t[0..] == t;
      AsWrittenIsSubstituteWithoutDollar(ReplaceAll(t, pairs[0].0, pairs[0].1), pairs[1..]);
    }
  }

  /** No key occurs in `t`. */
  predicate NoKeyIn(t: string, pairs: seq<Pair>) {
    forall i :: 0 <= i < |pairs| ==> !Contains(t, pairs[i].0)
  }

  /** A template holding none of the keys is returned unchanged by the intended chain. */
  lemma {:induction false} SubstituteNoKey(t: string, pairs: seq<Pair>)
    requires KeysNonEmpty(pairs) && NoKeyIn(t, pairs)
    ensures Substitute(t, pairs) == t
  {
    if |pairs| > 0 {
      ReplaceAllAbsent(t, pairs[0].0, pairs[0].1);
      SubstituteNoKey(t, pairs[1..]);
    }
  }

  /** ... and by the chain as written, whatever the values hold. */
  lemma {:induction false} AsWrittenNoKey(t: string, pairs: seq<Pair>)
    requires KeysNonEmpty(pairs) && NoKeyIn(t, pairs)
    ensures AsWritten(t, pairs) == t
  {
    if |pairs| > 0 {
      assert t[0..] == t;
      ReplaceFromAbsent(t, pairs[0].0, pairs[0].1, 0);
      AsWrittenNoKey(t, pairs[1..]);
    }
  }

  /**
   * The intended single substitution inserts the value verbatim at the first occurrence of
   * the key, and treats the text on either side independently.
   */
  lemma InsertsVerbatim(a: string, key: string, b: string, v: string)
    requires |key| > 0 && !Contains(a + key[..|key| - 1], key)
    ensures ReplaceAll(a + key + b, key, v) == ReplaceAll(a, key, v) + v + ReplaceAll(b, key, v)
  {
    var w := a + key[..|key| - 1];
    ContainsIffOccurs(w, key);
    forall i | 0 <= i < |a|
      ensures !OccursAt(a + key, key, i)
    {
      assert !OccursAt(w, key, i);
      assert (a + key)[i..i + |key|] == w[i..i + |key|];
    }
    ReplaceAllAround(a, key, b, v);
  }
}
