/**
 * createProblemFiles: lays out the directories of one problem in the workspace of a
 * language, fills the exercise and test templates of that language with the problem's
 * data, and for Rust declares the new module in `src/lib.rs`.
 */
module ProblemFiles {
  import opened Wrappers
  import opened Strings
  import opened FileSystem
  import opened LeetCode
  import opened Naming
  import opened LanguageTables
  import opened TemplateVars
  import opened Description
  import opened FunctionNames

  predicate IsJvm(language: string) { language == "kotlin" || language == "java" }

  // ---------------------------------------------------------------------------
  // The values substituted into the templates
  // ---------------------------------------------------------------------------

  /** The snippet LeetCode offers for `slug`: the first one with that slug (`Array.find`). */
  function FindSnippet(snippets: seq<CodeSnippet>, slug: string): (r: Option<CodeSnippet>)
    ensures r.None? <==> forall i :: 0 <= i < |snippets| ==> snippets[i].langSlug != slug
    ensures r.Some? ==> exists i :: 0 <= i < |snippets| && snippets[i] == r.value
                                    && r.value.langSlug == slug
                                    && (forall j :: 0 <= j < i ==> snippets[j].langSlug != slug)
  {
    if |snippets| == 0 then None
    else if snippets[0].langSlug == slug then Some(snippets[0])
    else
      var r := FindSnippet(snippets[1..], slug);
      assert forall i :: 1 <= i < |snippets| ==> snippets[i] == snippets[1..][i - 1];
      r
  }

  /** `codeSnippet?.code || getDefaultCodeForLanguage(language, title)`. */
  function DefaultCodeFor(problem: Problem, language: string): (r: string)
    ensures |r| > 0
  {
    match FindSnippet(problem.codeSnippets, LanguageSlug(language))
    case Some(snippet) => if snippet.code != "" then snippet.code else DefaultCode(language, problem.title)
    case None => DefaultCode(language, problem.title)
  }

  /**
   * Without a snippet for the language, or when the first one has empty code, the solution
   * body is the language's stub, which names the problem.
   */
  lemma DefaultCodeFallsBack(problem: Problem, language: string)
    ensures var found := FindSnippet(problem.codeSnippets, LanguageSlug(language));
      found.None? || found.value.code == "" ==>
        DefaultCodeFor(problem, language) == DefaultCode(language, problem.title)
        && Contains(DefaultCodeFor(problem, language), problem.title)
  {
    DefaultCodeMentionsTitle(language, problem.title);
  }

  /** The solution body is LeetCode's snippet for the language whenever it offers a non-empty one. */
  lemma DefaultCodeIsSnippet(problem: Problem, language: string, i: nat)
    requires i < |problem.codeSnippets| && problem.codeSnippets[i].langSlug == LanguageSlug(language)
    requires forall j :: 0 <= j < i ==> problem.codeSnippets[j].langSlug != LanguageSlug(language)
    requires problem.codeSnippets[i].code != ""
    ensures DefaultCodeFor(problem, language) == problem.codeSnippets[i].code
  {
    var r := FindSnippet(problem.codeSnippets, LanguageSlug(language));
    var k :| 0 <= k < |problem.codeSnippets| && problem.codeSnippets[k] == r.value
      && r.value.langSlug == LanguageSlug(language)
      && (forall j :: 0 <= j < k ==> problem.codeSnippets[j].langSlug != LanguageSlug(language));
    assert k == i;
  }

  /** `extractFunctionName(defaultCode) || camelCaseName`. */
  function FunctionNameFor(code: string, title: string): string {
    match ExtractFunctionName(code)
    case Some(name) => name
    case None => CamelName(title)
  }

  /** The function name is a word of the code when one of the extractors finds one, else the camelCase title. */
  lemma FunctionNameSource(code: string, title: string)
    ensures ExtractFunctionName(code).Some? ==> Captured(code, FunctionNameFor(code, title))
    ensures ExtractFunctionName(code).None? ==> FunctionNameFor(code, title) == CamelName(title)
  {
    ExtractedNameOccurs(code);
  }

  /** The placeholders, in the order the replacement record lists them (and so applies them). */
  const Keys: seq<string> := [
    "__PROBLEM_ID__", "__PROBLEM_TITLE__", "__PROBLEM_DESC__", "__PROBLEM_DIFFICULTY__",
    "__PROBLEM_DEFAULT_CODE__", "__PROBLEM_NAME_FORMATTED__", "__CLASS_NAME__",
    "__SNAKE_CASE_NAME__", "__PROBLEM_PACKAGE__", "__PROBLEM_CLASS_NAME__",
    "__EXERCISE_FILE_NAME__", "__EXERCISE_FILE_NAME_NO_EXT__"]

  /** The package placeholder: `problem` and the padded id for Kotlin and Java, else empty. */
  function PackageValue(language: string, padded: string): (p: string)
    ensures p == "" <==> !IsJvm(language)
  {
    if IsJvm(language) then "problem" + padded else ""
  }

  /** The values of the replacement record, in the order of `Keys`. */
  function Values(problem: Problem, language: string): (v: seq<string>)
    ensures |v| == |Keys|
  {
    var padded := PaddedId(problem.questionFrontendId);
    var code := DefaultCodeFor(problem, language);
    var className := ClassName(problem.title);
    var snake := SnakeName(problem.title);
    [problem.questionFrontendId, problem.title, CleanDescription(problem.content),
     problem.difficulty, code, FunctionNameFor(code, problem.title), className, snake,
     PackageValue(language, padded), className,
     ExerciseFileName(className, snake, language, padded),
     ExerciseStem(className, snake, language, padded)]
  }

  /** The replacement record of createProblemFiles. */
  function Replacements(problem: Problem, language: string): (r: seq<Pair>)
    ensures |r| == |Keys| && forall i :: 0 <= i < |r| ==> r[i].0 == Keys[i]
    ensures KeysNonEmpty(r)
  {
    var values := Values(problem, language);
    KeysAreNonEmpty();
    seq(|Keys|, i requires 0 <= i < |Keys| => (Keys[i], values[i]))
  }

  lemma KeysAreNonEmpty()
    ensures forall i :: 0 <= i < |Keys| ==> |Keys[i]| > 0
  {
  }

  /**
   * The package placeholder is empty exactly outside Kotlin and Java, and the solution
   * body substituted is never empty.
   */
  lemma ReplacementValues(problem: Problem, language: string)
    ensures Replacements(problem, language)[8].1 == "" <==> !IsJvm(language)
    ensures |Replacements(problem, language)[4].1| > 0
  {
    var r, v := Replacements(problem, language), Values(problem, language);
    assert r[8].1 == v[8] && r[4].1 == v[4];
    assert v[8] == PackageValue(language, PaddedId(problem.questionFrontendId));
    assert v[4] == DefaultCodeFor(problem, language);
  }

  // ---------------------------------------------------------------------------
  // Where the files go
  // ---------------------------------------------------------------------------

  /**
   * Where createProblemFiles reads and writes. Kotlin and Java use a Gradle layout with
   * separate source and test packages, Rust the crate's `src`, every other language one
   * `problem_NNNN` directory holding both files.
   */
  datatype Plan = Plan(
    language: string,
    languageDir: Path,
    problemDir: Path,
    testDir: Path,
    exercisePath: Path,
    testPath: Path,
    libPath: Path,
    moduleName: string,
    exerciseTemplate: Path,
    testTemplate: Path,
    problem: Problem)

  /** The replacement record the plan's templates are filled from. */
  function Pairs(pl: Plan): (r: seq<Pair>)
    ensures KeysNonEmpty(r)
  {
    Replacements(pl.problem, pl.language)
  }

  function PlanFor(cwd: Path, templatesDir: Path, problem: Problem, language: string): (pl: Plan)
    ensures pl.problemDir == pl.testDir <==> !IsJvm(language)
    ensures pl.languageDir == cwd + [language] && pl.libPath == pl.languageDir + ["src", "lib.rs"]
    ensures pl.language == language
    ensures Dirname(pl.exercisePath) == pl.problemDir && Dirname(pl.testPath) == pl.testDir
  {
    var padded := PaddedId(problem.questionFrontendId);
    var languageDir := cwd + [language];
    var className := ClassName(problem.title);
    var snake := SnakeName(problem.title);
    var problemDir :=
      if IsJvm(language) then languageDir + ["src", "main", language, "problem" + padded]
      else if language == "rust" then languageDir + ["src"]
      else languageDir + ["problem_" + padded];
    var testDir :=
      if IsJvm(language) then languageDir + ["src", "test", language, "problem" + padded]
      else problemDir;
    var ext := FileExtension(language);
    assert IsJvm(language) ==> problemDir[|languageDir| + 1] != testDir[|languageDir| + 1];
    Plan(language, languageDir, problemDir, testDir,
      problemDir + [ExerciseFileName(className, snake, language, padded)],
      testDir + [TestFileName(className, snake, language)],
      languageDir + ["src", "lib.rs"],
      "problem_" + padded,
      templatesDir + [language, "exercise_template." + ext],
      templatesDir + [language, "test_template." + ext],
      problem)
  }

  /** The directories createProblemFiles creates, with their ancestors. */
  function NewDirs(pl: Plan): set<Path> {
    Prefixes(pl.problemDir) + Prefixes(pl.testDir)
  }

  /** The exercise file's content: the exercise template with the placeholders substituted. */
  function ExerciseContent(files: map<Path, string>, pl: Plan): string
    requires pl.exerciseTemplate in files
  {
    Substitute(files[pl.exerciseTemplate], Pairs(pl))
  }

  /** The files once the exercise file is written. */
  function WithExercise(files: map<Path, string>, pl: Plan): map<Path, string>
    requires pl.exerciseTemplate in files
  {
    files[pl.exercisePath := ExerciseContent(files, pl)]
  }

  /**
   * Every step succeeds: no file blocks the directories, the exercise template exists,
   * the exercise file can be written, and then lib.rs exists (Rust) or the test template
   * exists and the test file can be written (every other language).
   */
  predicate CreateSucceeds(files: map<Path, string>, dirs: set<Path>, pl: Plan)
  {
    files.Keys !! NewDirs(pl) && WriteSucceeds(files, dirs + NewDirs(pl), pl)
  }

  /** The steps after the directories exist succeed. */
  predicate WriteSucceeds(files: map<Path, string>, dirs: set<Path>, pl: Plan)
  {
    && pl.exerciseTemplate in files
    && Writable(files, dirs, pl.exercisePath)
    && var files1 := WithExercise(files, pl);
       if pl.language == "rust" then pl.libPath in files1
       else pl.testTemplate in files1 && Writable(files1, dirs, pl.testPath)
  }

  /** The files after a successful run. */
  function CreatedFiles(files: map<Path, string>, pl: Plan): map<Path, string>
    requires pl.exerciseTemplate in files
    requires pl.language == "rust" ==> pl.libPath in WithExercise(files, pl)
    requires pl.language != "rust" ==> pl.testTemplate in WithExercise(files, pl)
  {
    var files1 := WithExercise(files, pl);
    if pl.language == "rust" then files1[pl.libPath := LibRsUpdate(files1[pl.libPath], pl.moduleName)]
    else files1[pl.testPath := Substitute(files1[pl.testTemplate], Pairs(pl))]
  }

  // ---------------------------------------------------------------------------
  // lib.rs
  // ---------------------------------------------------------------------------

  function Declaration(moduleName: string): string {
    "pub mod " + moduleName + ";"
  }

  /** The new content of lib.rs: the declaration is appended on its own line unless already present. */
  function LibRsUpdate(content: string, moduleName: string): (r: string)
    ensures Contains(r, Declaration(moduleName))
    ensures |content| <= |r| && r[..|content|] == content
    ensures Contains(content, Declaration(moduleName)) <==> r == content
  {
    var decl := Declaration(moduleName);
    if Contains(content, decl) then content
    else
      var r := content + "\n" + decl + "\n";
      assert r[|content| + 1..|content| + 1 + |decl|] == decl;
      OccursContains(r, decl, |content| + 1);
      r
  }

  /** Declaring a module twice declares it once. */
  lemma LibRsUpdateIdempotent(content: string, moduleName: string)
    ensures LibRsUpdate(LibRsUpdate(content, moduleName), moduleName) == LibRsUpdate(content, moduleName)
  {
  }

  /** addModuleToLibRs. */
  method AddModuleToLibRs(h: Host, languageDir: Path, moduleName: string) returns (st: Status)
    requires h.Valid()
    modifies h
    ensures h.Valid() && h.dirs == old(h.dirs) && h.cwd == old(h.cwd)
    ensures var lib := languageDir + ["src", "lib.rs"];
      && (st.Done? <==> lib in old(h.files))
      && h.files == if st.Done? then old(h.files)[lib := LibRsUpdate(old(h.files)[lib], moduleName)] else old(h.files)
  {
    var lib := languageDir + ["src", "lib.rs"];
    var content := h.ReadFile(lib);
    if content.Failure? {
      return Error("Failed to update lib.rs: " + content.error);
    }
    var decl := Declaration(moduleName);
    if Contains(content.value, decl) {
      assert old(h.files)[lib := content.value] == old(h.files);
      return Done;
    }
    // lib.rs is a regular file, so its directory exists and the write cannot fail.
    assert Writable(h.files, h.dirs, lib);
    st := h.WriteFile(lib, content.value + "\n" + decl + "\n");
  }

  // ---------------------------------------------------------------------------
  // createProblemFiles
  // ---------------------------------------------------------------------------

  /** createProblemFiles, with the templates directory of the CLI's installation as a parameter. */
  method CreateProblemFiles(h: Host, templatesDir: Path, problem: Problem, language: string) returns (st: Status)
    requires h.Valid()
    modifies h
    ensures h.Valid() && h.cwd == old(h.cwd)
    ensures var pl := PlanFor(old(h.cwd), templatesDir, problem, language);
      && (st.Done? <==> CreateSucceeds(old(h.files), old(h.dirs), pl))
      && (st.Done? ==> h.dirs == old(h.dirs) + NewDirs(pl) && h.files == CreatedFiles(old(h.files), pl))
      && (st.Error? ==> old(h.dirs) <= h.dirs <= old(h.dirs) + NewDirs(pl))
      && (st.Error? ==> (h.files == old(h.files)
                         || (pl.exerciseTemplate in old(h.files) && h.files == WithExercise(old(h.files), pl))))
  {
    var pl := PlanFor(h.cwd, templatesDir, problem, language);
    st := MakeProblemDirs(h, pl);
    if st.Error? {
      return;
    }
    st := WriteProblemFiles(h, pl);
  }

  /** The directory part: the problem directory, and for Kotlin and Java the test package too. */
  method MakeProblemDirs(h: Host, pl: Plan) returns (st: Status)
    requires h.Valid() && (IsJvm(pl.language) <==> pl.problemDir != pl.testDir)
    modifies h
    ensures h.Valid() && h.files == old(h.files) && h.cwd == old(h.cwd)
    ensures st.Done? <==> old(h.files).Keys !! NewDirs(pl)
    ensures st.Done? ==> h.dirs == old(h.dirs) + NewDirs(pl)
    ensures st.Error? ==> old(h.dirs) <= h.dirs <= old(h.dirs) + NewDirs(pl)
  {
    st := h.MakeDirs(pl.problemDir);
    if st.Error? {
      return;
    }
    if IsJvm(pl.language) {
      st := h.MakeDirs(pl.testDir);
    }
  }

  /** The file part, once the directories exist. */
  method WriteProblemFiles(h: Host, pl: Plan) returns (st: Status)
    requires h.Valid() && pl.libPath == pl.languageDir + ["src", "lib.rs"]
    modifies h
    ensures h.Valid() && h.dirs == old(h.dirs) && h.cwd == old(h.cwd)
    ensures st.Done? <==> WriteSucceeds(old(h.files), old(h.dirs), pl)
    ensures st.Done? ==> h.files == CreatedFiles(old(h.files), pl)
    ensures st.Error? ==> (h.files == old(h.files)
                           || (pl.exerciseTemplate in old(h.files) && h.files == WithExercise(old(h.files), pl)))
  {
    var exerciseTemplate := h.ReadFile(pl.exerciseTemplate);
    if exerciseTemplate.Failure? {
      return Error(exerciseTemplate.error);
    }
    var exerciseContent := ReplaceTemplateVars(exerciseTemplate.value, Pairs(pl));
    st := h.WriteFile(pl.exercisePath, exerciseContent);
    if st.Error? {
      return;
    }
    ghost var files1 := h.files;
    assert files1 == WithExercise(old(h.files), pl);
    if pl.language == "rust" {
      st := AddModuleToLibRs(h, pl.languageDir, pl.moduleName);
      assert st.Done? <==> pl.libPath in files1;
    } else {
      var testTemplate := h.ReadFile(pl.testTemplate);
      if testTemplate.Failure? {
        assert pl.testTemplate !in files1;
        return Error(testTemplate.error);
      }
      var testContent := ReplaceTemplateVars(testTemplate.value, Pairs(pl));
      st := h.WriteFile(pl.testPath, testContent);
      assert st.Done? <==> Writable(files1, old(h.dirs), pl.testPath);
    }
  }

  // ---------------------------------------------------------------------------
  // What a successful run leaves behind
  // ---------------------------------------------------------------------------

  /** The exercise file and the test file are different files, so writing one never loses the other. */
  lemma ExerciseAndTestPathsDiffer(cwd: Path, templatesDir: Path, problem: Problem, language: string)
    ensures var pl := PlanFor(cwd, templatesDir, problem, language);
      pl.exercisePath != pl.testPath && (language == "rust" ==> pl.exercisePath != pl.libPath)
  {
    var pl := PlanFor(cwd, templatesDir, problem, language);
    var className := ClassName(problem.title);
    var snake := SnakeName(problem.title);
    var padded := PaddedId(problem.questionFrontendId);
    ClassNameChars(problem.title);
    assert '_' !in className;
    ExerciseAndTestNamesDiffer(className, snake, language, padded);
    if IsJvm(language) {
      assert pl.problemDir != pl.testDir;
    } else {
      assert pl.exercisePath[|pl.exercisePath| - 1] != pl.testPath[|pl.testPath| - 1];
    }
    if language == "rust" {
      assert pl.exercisePath[|pl.exercisePath| - 1] != pl.libPath[|pl.libPath| - 1];
    }
  }

  /**
   * After a successful run the exercise file holds the substituted exercise template and
   * the test file the substituted test template (for Rust, lib.rs declares the module);
   * every other file is as it was.
   */
  lemma CreatedFilesContents(files: map<Path, string>, dirs: set<Path>, cwd: Path, templatesDir: Path,
                             problem: Problem, language: string)
    requires var pl := PlanFor(cwd, templatesDir, problem, language); CreateSucceeds(files, dirs, pl)
    ensures var pl := PlanFor(cwd, templatesDir, problem, language);
      var r := CreatedFiles(files, pl);
      && pl.exercisePath in r && r[pl.exercisePath] == Substitute(files[pl.exerciseTemplate], Pairs(pl))
      && (language != "rust" ==> (pl.testPath in r
                                   && r[pl.testPath] == Substitute(WithExercise(files, pl)[pl.testTemplate], Pairs(pl))))
      && (language == "rust" ==> pl.libPath in r && Contains(r[pl.libPath], Declaration(pl.moduleName)))
      && (forall p :: p in files && p != pl.exercisePath && p != pl.testPath && p != pl.libPath
            ==> p in r && r[p] == files[p])
  {
    ExerciseAndTestPathsDiffer(cwd, templatesDir, problem, language);
    PlanFilesContents(files, dirs, PlanFor(cwd, templatesDir, problem, language));
  }

  /** A successful run leaves the exercise file in place, whichever file the last step writes. */
  lemma ExerciseFileCreated(files: map<Path, string>, dirs: set<Path>, pl: Plan)
    requires CreateSucceeds(files, dirs, pl)
    ensures pl.exercisePath in CreatedFiles(files, pl)
  {
    var files1 := WithExercise(files, pl);
    assert pl.exercisePath in files1;
    if pl.language == "rust" {
      assert CreatedFiles(files, pl).Keys == files1.Keys + {pl.libPath};
    } else {
      assert CreatedFiles(files, pl).Keys == files1.Keys + {pl.testPath};
    }
  }

  /** CreatedFilesContents for any plan whose exercise file is neither its test file nor lib.rs. */
  lemma PlanFilesContents(files: map<Path, string>, dirs: set<Path>, pl: Plan)
    requires CreateSucceeds(files, dirs, pl)
    requires pl.exercisePath != pl.testPath && (pl.language == "rust" ==> pl.exercisePath != pl.libPath)
    ensures var r := CreatedFiles(files, pl);
      && pl.exercisePath in r && r[pl.exercisePath] == Substitute(files[pl.exerciseTemplate], Pairs(pl))
      && (pl.language != "rust" ==> (pl.testPath in r
                                      && r[pl.testPath] == Substitute(WithExercise(files, pl)[pl.testTemplate], Pairs(pl))))
      && (pl.language == "rust" ==> pl.libPath in r && Contains(r[pl.libPath], Declaration(pl.moduleName)))
      && (forall p :: p in files && p != pl.exercisePath && p != pl.testPath && p != pl.libPath
            ==> p in r && r[p] == files[p])
  {
    var files1 := WithExercise(files, pl);
    var r := CreatedFiles(files, pl);
    if pl.language == "rust" {
      assert r == files1[pl.libPath := LibRsUpdate(files1[pl.libPath], pl.moduleName)];
    } else {
      assert r == files1[pl.testPath := Substitute(files1[pl.testTemplate], Pairs(pl))];
    }
  }

  /**
   * The Go exercise file is named after the class, so a title such as "Two Sum" gives
   * `TwoSum.go` beside `two_sum_test.go`: the exercise name never holds an underscore.
   */
  lemma GoExerciseNameHasNoUnderscore(problem: Problem)
    ensures var pl := PlanFor([], [], problem, "go");
      '_' !in pl.exercisePath[|pl.exercisePath| - 1]
  {
    var pl := PlanFor([], [], problem, "go");
    var name := ClassName(problem.title);
    ClassNameChars(problem.title);
    assert FileExtension("go") == "go";
    assert pl.exercisePath[|pl.exercisePath| - 1] == name + ".go";
    assert '_' !in ".go";
  }
}
