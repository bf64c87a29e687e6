/**
 * The per-language lookup tables of the TypeScript CLI: LeetCode slugs, file extensions,
 * exercise and test file names, and the fallback solution body.
 */
module LanguageTables {
  import opened Strings

  /** The languages the slug and extension tables list. */
  const TableLanguages: set<string> :=
    {"typescript", "javascript", "python", "java", "cpp", "go", "rust", "kotlin"}

  /** getLanguageSlug: the table entry, or the language itself. */
  function LanguageSlug(language: string): string {
    match language
    case "typescript" => "typescript"
    case "javascript" => "javascript"
    case "python" => "python3"
    case "java" => "java"
    case "cpp" => "cpp"
    case "go" => "golang"
    case "rust" => "rust"
    case "kotlin" => "kotlin"
    case _ => language
  }

  /** Only python and go have a LeetCode slug different from their own name. */
  lemma LanguageSlugIdentityExcept(language: string)
    ensures LanguageSlug(language) ==
      if language == "python" then "python3"
      else if language == "go" then "golang"
      else language
  {
  }

  /** getFileExtension: the table entry, or "txt". */
  function FileExtension(language: string): string {
    match language
    case "typescript" => "ts"
    case "javascript" => "js"
    case "python" => "py"
    case "java" => "java"
    case "cpp" => "cpp"
    case "go" => "go"
    case "rust" => "rs"
    case "kotlin" => "kt"
    case _ => "txt"
  }

  /** The extension is one of nine, and "txt" exactly for the languages outside the table. */
  lemma FileExtensionRange(language: string)
    ensures FileExtension(language) in {"ts", "js", "py", "java", "cpp", "go", "rs", "kt", "txt"}
    ensures FileExtension(language) == "txt" <==> language !in TableLanguages
    ensures '.' !in FileExtension(language) && |FileExtension(language)| > 0
  {
  }

  /** `paddedId || '0001'`. */
  function IdOrDefault(paddedId: string): string {
    if paddedId == "" then "0001" else paddedId
  }

  /** getExerciseFileNameNoExt. */
  function ExerciseStem(className: string, snakeName: string, language: string, paddedId: string): string {
    if language == "cpp" || language == "c" then snakeName
    else if language == "rust" then "problem_" + IdOrDefault(paddedId)
    else className
  }

  /** getExerciseFileName: snake case for C and C++, `problem_NNNN.rs` for Rust, else the class name. */
  function ExerciseFileName(className: string, snakeName: string, language: string, paddedId: string): string {
    if language == "cpp" || language == "c" then snakeName + "." + FileExtension(language)
    else if language == "rust" then "problem_" + IdOrDefault(paddedId) + ".rs"
    else className + "." + FileExtension(language)
  }

  /** The file name is always the stem, a dot and the language's extension. */
  lemma ExerciseFileNameHasStem(className: string, snakeName: string, language: string, paddedId: string)
    ensures ExerciseFileName(className, snakeName, language, paddedId)
      == ExerciseStem(className, snakeName, language, paddedId) + "." + FileExtension(language)
  {
  }

  /** getTestFileName. */
  function TestFileName(className: string, snakeName: string, language: string): string {
    var ext := FileExtension(language);
    if language == "cpp" || language == "c" then snakeName + ".test." + ext
    else if language == "kotlin" || language == "java" then className + "Test." + ext
    else if language == "python" then "test_" + snakeName + "." + ext
    else if language == "go" then snakeName + "_test." + ext
    else if language == "rust" then "lib.rs"
    else className + ".test." + ext
  }

  /**
   * An exercise file and its test file never have the same name, provided the class name
   * holds no '_' (which every derived class name satisfies), so the flat layout that puts
   * both in one directory never overwrites one with the other.
   */
  lemma ExerciseAndTestNamesDiffer(className: string, snakeName: string, language: string, paddedId: string)
    requires '_' !in className
    ensures ExerciseFileName(className, snakeName, language, paddedId) != TestFileName(className, snakeName, language)
  {
    var ext := FileExtension(language);
    var ex := ExerciseFileName(className, snakeName, language, paddedId);
    var t := TestFileName(className, snakeName, language);
    if language == "python" {
      if |className| >= 5 {
        assert ex[4] == className[4];
        assert t[4] == '_';
      } else {
        assert |ex| == |className| + 1 + |ext| < |t|;
      }
    } else if language == "go" {
      if |className| > |snakeName| {
        assert |t| == |snakeName| + 6 + |ext|;
        assert |ex| == |className| + 1 + |ext|;
        if |ex| == |t| {
          assert ex[|className|] == '.';
          assert t[|snakeName|..|snakeName| + 6] == "_test.";
          var k := |snakeName|;
          assert t[k] == '_';
          assert ex[k] == className[k];
        }
      } else {
        assert |ex| < |t|;
      }
    } else if language == "rust" {
      assert |ex| >= 12 && |t| == 6;
    } else {
      assert |ex| < |t|;
    }
  }

  /** getDefaultCodeForLanguage: a solution stub naming the problem, used when no snippet fits. */
  function DefaultCode(language: string, title: string): (r: string)
    ensures |r| > 0
  {
    var todo := "// TODO: Implement solution for " + title;
    if language == "kotlin" || language == "java" then "class Solution {\n    " + todo + "\n}"
    else if language == "cpp" then "class Solution {\npublic:\n    " + todo + "\n};"
    else todo
  }

  /** The stub always carries the title, so the fallback body is never empty. */
  lemma DefaultCodeMentionsTitle(language: string, title: string)
    ensures Contains(DefaultCode(language, title), title)
  {
    var todo := "// TODO: Implement solution for " + title;
    var r := DefaultCode(language, title);
    var k := |"// TODO: Implement solution for "|;
    assert todo[k..k + |title|] == title;
    var off := if language == "kotlin" || language == "java" then |"class Solution {\n    "|
      else if language == "cpp" then |"class Solution {\npublic:\n    "|
      else 0;
    assert r[off + k..off + k + |title|] == title;
    OccursContains(r, title, off + k);
  }
}
