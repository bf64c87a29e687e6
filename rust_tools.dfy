/**
 * The pure helpers of the Rust prototype: id padding, file extensions, snippet lookup and
 * the three template fillers. Rust's `str::replace` is literal, so the fillers are chains of
 * `ReplaceAll`, written as `TemplateVars.Substitute` over the placeholders in the order the
 * code replaces them.
 */
module RustTools {
  import opened Wrappers
  import opened Strings
  import opened LeetCode
  import opened TemplateVars
  import Naming
  import RustLanguages

  // ---------------------------------------------------------------------------
  // add_leading_zeros
  // ---------------------------------------------------------------------------

  /** `format!("{:0>4}", id)`: the id right-aligned in four characters, padded with '0'. */
  function AddLeadingZeros(id: string): (r: string)
    ensures |r| == if |id| >= 4 then |id| else 4
    ensures r[|r| - |id|..] == id
    ensures forall i :: 0 <= i < |r| - |id| ==> r[i] == '0'
  {
    PadStart(id, 4, '0')
  }

  /** The Rust padding agrees with the TypeScript CLI's `padStart(4, '0')`. */
  lemma AddLeadingZerosIsPaddedId(id: string)
    ensures AddLeadingZeros(id) == Naming.PaddedId(id)
  {
  }

  lemma AddLeadingZerosOne()
    ensures AddLeadingZeros("1") == "0001"
  {
    assert Repeat('0', 3) == "000" by {
      assert Repeat('0', 1) == "0";
      assert Repeat('0', 2) == "00";
    }
  }

  // ---------------------------------------------------------------------------
  // get_file_extension
  // ---------------------------------------------------------------------------

  /** get_file_extension: matched on the lower-cased name, "txt" for anything unknown. */
  function FileExtension(language: string): (r: string)
    ensures r in {"py", "ts", "cc", "rs", "txt"}
    ensures r == "cc" <==> ToLower(language) == "c++" || ToLower(language) == "cpp"
    ensures r == "txt" <==> ToLower(language) !in {"python", "typescript", "c++", "cpp", "rust"}
  {
    var l := ToLower(language);
    if l == "python" then "py"
    else if l == "typescript" then "ts"
    else if l == "c++" || l == "cpp" then "cc"
    else if l == "rust" then "rs"
    else "txt"
  }

  lemma ToLowerIdempotent(s: string)
    ensures ToLower(ToLower(s)) == ToLower(s)
  {
  }

  /** Matching ignores case: a name and its lower-cased form get the same extension. */
  lemma FileExtensionIgnoresCase(language: string)
    ensures FileExtension(ToLower(language)) == FileExtension(language)
  {
    ToLowerIdempotent(language);
  }

  /** Every supported language has an extension of its own, none of them "txt". */
  lemma SupportedExtensions(a: RustLanguages.SupportedLanguage, b: RustLanguages.SupportedLanguage)
    ensures FileExtension(RustLanguages.Display(a)) != "txt"
    ensures FileExtension(RustLanguages.Display(a)) == FileExtension(RustLanguages.Display(b)) <==> a == b
  {
    LowerFixed(RustLanguages.Display(a));
    LowerFixed(RustLanguages.Display(b));
  }

  /** A lower-case string is its own lower-cased form. */
  lemma LowerFixed(s: string)
    requires AllLower(s)
    ensures ToLower(s) == s
  {
  }

  // ---------------------------------------------------------------------------
  // get_code_snippet_by_lang
  // ---------------------------------------------------------------------------

  /** A snippet is for the language when the lower-cased slug equals the lower-cased display name. */
  predicate SnippetMatches(snippet: CodeSnippet, language: RustLanguages.SupportedLanguage) {
    ToLower(snippet.langSlug) == ToLower(RustLanguages.Display(language))
  }

  /** get_code_snippet_by_lang: the first matching snippet, or an error naming the language. */
  function CodeSnippetByLang(snippets: seq<CodeSnippet>, language: RustLanguages.SupportedLanguage): (r: Result<CodeSnippet>)
    ensures r.Failure? <==> forall i :: 0 <= i < |snippets| ==> !SnippetMatches(snippets[i], language)
    ensures r.Failure? ==> r.error == "No code snippet found for language: " + RustLanguages.Display(language)
    ensures r.Success? ==> exists i :: 0 <= i < |snippets| && snippets[i] == r.value
                                       && SnippetMatches(r.value, language)
                                       && (forall j :: 0 <= j < i ==> !SnippetMatches(snippets[j], language))
  {
    if |snippets| == 0 then Failure("No code snippet found for language: " + RustLanguages.Display(language))
    else if SnippetMatches(snippets[0], language) then Success(snippets[0])
    else
      var r := CodeSnippetByLang(snippets[1..], language);
      assert forall i :: 1 <= i < |snippets| ==> snippets[i] == snippets[1..][i - 1];
      r
  }

  /**
   * The display name of Python is "python", so LeetCode's "python3" snippet never matches
   * it, whatever its capitalisation.
   */
  lemma PythonMissesPython3(snippet: CodeSnippet)
    requires ToLower(snippet.langSlug) == "python3"
    ensures !SnippetMatches(snippet, RustLanguages.Python)
  {
    assert |ToLower(snippet.langSlug)| == 7;
    assert |ToLower(RustLanguages.Display(RustLanguages.Python))| == 6;
  }

  // ---------------------------------------------------------------------------
  // fill_exercise_template, fill_test_template, fill_build_template
  // ---------------------------------------------------------------------------

  const ProblemIdKey := "__PROBLEM_ID__"
  const ProblemTitleKey := "__PROBLEM_TITLE__"
  const ProblemDescKey := "__PROBLEM_DESC__"
  const ProblemDifficultyKey := "__PROBLEM_DIFFICULTY__"
  const ProblemDefaultCodeKey := "__PROBLEM_DEFAULT_CODE__"
  const NameFormattedKey := "__PROBLEM_NAME_FORMATTED__"
  const ExerciseFileNameKey := "__EXERCISE_FILE_NAME__"
  const ExerciseNameKey := "__EXERCISE_NAME__"
  const ExerciseFileKey := "__EXERCISE_FILE__"
  const TestNameKey := "__TEST_NAME__"
  const TestFileKey := "__TEST_FILE__"

  /**
   * The exercise placeholders in replacement order with their values. `sanitize` stands for
   * `sanitize_text`, which is not part of this model.
   */
  function ExercisePairs(question: Problem, snippet: CodeSnippet, sanitize: string -> string): (r: seq<Pair>)
    ensures |r| == 5 && KeysNonEmpty(r)
    ensures r[0] == (ProblemIdKey, AddLeadingZeros(question.questionId))
    ensures r[4] == (ProblemDefaultCodeKey, snippet.code)
  {
    [(ProblemIdKey, AddLeadingZeros(question.questionId)),
     (ProblemTitleKey, question.title),
     (ProblemDescKey, sanitize(question.content)),
     (ProblemDifficultyKey, question.difficulty),
     (ProblemDefaultCodeKey, snippet.code)]
  }

  /** fill_exercise_template: always `Ok`. */
  function FillExerciseTemplate(template: string, question: Problem, snippet: CodeSnippet,
                                sanitize: string -> string): (r: Result<string>)
    ensures r.Success?
  {
    var pairs := ExercisePairs(question, snippet, sanitize);
    Success(Substitute(template, pairs))
  }

  /** A template holding none of the placeholders comes back unchanged. */
  lemma FillExerciseNoPlaceholder(template: string, question: Problem, snippet: CodeSnippet, sanitize: string -> string)
    requires NoKeyIn(template, ExercisePairs(question, snippet, sanitize))
    ensures FillExerciseTemplate(template, question, snippet, sanitize).value == template
  {
    SubstituteNoKey(template, ExercisePairs(question, snippet, sanitize));
  }

  /** The test placeholders in replacement order. `toCamel` stands for `to_case(Case::Camel)`. */
  function TestPairs(question: Problem, exerciseFileName: string, toCamel: string -> string): (r: seq<Pair>)
    ensures |r| == 2 && KeysNonEmpty(r)
    ensures r[1] == (ExerciseFileNameKey, exerciseFileName)
  {
    [(NameFormattedKey, toCamel(question.title)), (ExerciseFileNameKey, exerciseFileName)]
  }

  /** fill_test_template: always `Ok`. */
  function FillTestTemplate(template: string, question: Problem, exerciseFileName: string,
                            toCamel: string -> string): (r: Result<string>)
    ensures r.Success?
  {
    var pairs := TestPairs(question, exerciseFileName, toCamel);
    Success(Substitute(template, pairs))
  }

  /** A template holding none of the placeholders comes back unchanged. */
  lemma FillTestNoPlaceholder(template: string, question: Problem, exerciseFileName: string, toCamel: string -> string)
    requires NoKeyIn(template, TestPairs(question, exerciseFileName, toCamel))
    ensures FillTestTemplate(template, question, exerciseFileName, toCamel).value == template
  {
    SubstituteNoKey(template, TestPairs(question, exerciseFileName, toCamel));
  }

  /** The build placeholders in replacement order; both file names carry the language's extension. */
  function BuildPairs(exerciseName: string, testName: string, language: RustLanguages.SupportedLanguage): (r: seq<Pair>)
    ensures |r| == 4 && KeysNonEmpty(r)
    ensures r[1].1 == exerciseName + "." + FileExtension(RustLanguages.Display(language))
    ensures r[3].1 == testName + "." + FileExtension(RustLanguages.Display(language))
  {
    var ext := FileExtension(RustLanguages.Display(language));
    [(ExerciseNameKey, exerciseName), (ExerciseFileKey, exerciseName + "." + ext),
     (TestNameKey, testName), (TestFileKey, testName + "." + ext)]
  }

  /** fill_build_template: total, with no error path. */
  function FillBuildTemplate(template: string, exerciseName: string, testName: string,
                             language: RustLanguages.SupportedLanguage): (r: string)
  {
    var pairs := BuildPairs(exerciseName, testName, language);
    Substitute(template, pairs)
  }

  /** A template holding none of the placeholders comes back unchanged. */
  lemma FillBuildNoPlaceholder(template: string, exerciseName: string, testName: string, language: RustLanguages.SupportedLanguage)
    requires NoKeyIn(template, BuildPairs(exerciseName, testName, language))
    ensures FillBuildTemplate(template, exerciseName, testName, language) == template
  {
    SubstituteNoKey(template, BuildPairs(exerciseName, testName, language));
  }

  /**
   * The last placeholder of a chain is replaced after all the others, so its value goes in
   * verbatim: when the template holds no earlier placeholder and holds the last one once,
   * the result is the template with that one occurrence swapped for the value, whatever
   * placeholder text the value itself carries.
   */
  lemma {:induction false} LastValueVerbatim(pairs: seq<Pair>, a: string, b: string)
    requires KeysNonEmpty(pairs) && |pairs| > 0
    requires var key := pairs[|pairs| - 1].0;
      && NoKeyIn(a + key + b, pairs[..|pairs| - 1])
      && !Contains(a, key) && !Contains(a + key[..|key| - 1], key) && !Contains(b, key)
    ensures var last := pairs[|pairs| - 1];
      Substitute(a + last.0 + b, pairs) == a + last.1 + b
  {
    var n := |pairs| - 1;
    var key := pairs[n].0;
    var t := a + key + b;
    SubstituteStep(t, pairs, n);
    assert pairs[..n + 1] == pairs;
    SubstituteNoKey(t, pairs[..n]);
    InsertsVerbatim(a, key, b, pairs[n].1);
    ReplaceAllAbsent(a, key, pairs[n].1);
    ReplaceAllAbsent(b, key, pairs[n].1);
  }

  /** The snippet code is the last value of the exercise chain, so it is inserted verbatim. */
  lemma SnippetInsertedVerbatim(a: string, b: string, question: Problem, snippet: CodeSnippet,
                                sanitize: string -> string)
    requires var pairs := ExercisePairs(question, snippet, sanitize);
      && NoKeyIn(a + ProblemDefaultCodeKey + b, pairs[..4])
      && !Contains(a, ProblemDefaultCodeKey) && !Contains(b, ProblemDefaultCodeKey)
      && !Contains(a + ProblemDefaultCodeKey[..|ProblemDefaultCodeKey| - 1], ProblemDefaultCodeKey)
    ensures FillExerciseTemplate(a + ProblemDefaultCodeKey + b, question, snippet, sanitize).value
      == a + snippet.code + b
  {
    LastValueVerbatim(ExercisePairs(question, snippet, sanitize), a, b);
  }

  /** The exercise file name is the last value of the test chain, so it is inserted verbatim. */
  lemma FileNameInsertedVerbatim(a: string, b: string, question: Problem, exerciseFileName: string,
                                 toCamel: string -> string)
    requires var pairs := TestPairs(question, exerciseFileName, toCamel);
      && NoKeyIn(a + ExerciseFileNameKey + b, pairs[..1])
      && !Contains(a, ExerciseFileNameKey) && !Contains(b, ExerciseFileNameKey)
      && !Contains(a + ExerciseFileNameKey[..|ExerciseFileNameKey| - 1], ExerciseFileNameKey)
    ensures FillTestTemplate(a + ExerciseFileNameKey + b, question, exerciseFileName, toCamel).value
      == a + exerciseFileName + b
  {
    LastValueVerbatim(TestPairs(question, exerciseFileName, toCamel), a, b);
  }
}
