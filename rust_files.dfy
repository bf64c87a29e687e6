/**
 * `FileUtils` of the Rust prototype: names and writes the exercise and test files of a
 * problem under `<target>/<language>/`, copies template files, and creates the project and
 * language directories. The struct's two directories never change after construction, so
 * it is a value here; the file system is the `Host`.
 */
module RustFiles {
  import opened Wrappers
  import opened Strings
  import opened FileSystem
  import opened LeetCode
  import RustLanguages
  import RustTools

  datatype FileUtils = FileUtils(templatesDirectory: Path, targetDirectory: Path)

  // ---------------------------------------------------------------------------
  // Paths
  // ---------------------------------------------------------------------------

  /** The non-empty fields of `s` split at '/': the components `Path` sees in a string. */
  function Components(s: string): (r: Path)
    ensures forall i :: 0 <= i < |r| ==> |r[i]| > 0 && '/' !in r[i]
  {
    SplitFieldsNoSlash(s);
    NonEmptyFields(Split(s, '/'))
  }

  function NonEmptyFields(fields: seq<string>): (r: seq<string>)
    requires forall k :: 0 <= k < |fields| ==> '/' !in fields[k]
    ensures forall i :: 0 <= i < |r| ==> |r[i]| > 0 && '/' !in r[i]
  {
    if |fields| == 0 then []
    else if fields[0] == "" then NonEmptyFields(fields[1..])
    else [fields[0]] + NonEmptyFields(fields[1..])
  }

  /** `base.join(s)`: a string starting with '/' replaces the base, any other is appended. */
  function PathJoin(base: Path, s: string): (r: Path)
    ensures |s| > 0 && s[0] == '/' ==> r == Components(s)
    ensures !(|s| > 0 && s[0] == '/') ==> r == base + Components(s)
    ensures !(|s| > 0 && s[0] == '/') ==> |base| <= |r| && r[..|base|] == base
    ensures forall i :: (if |s| > 0 && s[0] == '/' then 0 else |base|) <= i < |r| ==> |r[i]| > 0 && '/' !in r[i]
  {
    if |s| > 0 && s[0] == '/' then Components(s) else base + Components(s)
  }

  /** Splitting at a separator splits each side on its own. */
  lemma {:induction false} SplitAtSeparator(x: string, y: string, sep: char)
    ensures Split(x + [sep] + y, sep) == Split(x, sep) + Split(y, sep)
  {
    if |x| == 0 {
      var whole := x + [sep] + y;
      assert whole == [sep] + y && whole[1..] == y;
    } else {
      SplitAtSeparator(x[1..], y, sep);
      SplitAtSeparatorStep(x, y, sep);
    }
  }

  lemma SplitAtSeparatorStep(x: string, y: string, sep: char)
    requires |x| > 0
    requires Split(x[1..] + [sep] + y, sep) == Split(x[1..], sep) + Split(y, sep)
    ensures Split(x + [sep] + y, sep) == Split(x, sep) + Split(y, sep)
  {
    var xs, ys := Split(x[1..], sep), Split(y, sep);
    SeparatedHeadAndTail(x, y, sep);
    if x[0] == sep {
      SeqAssoc([""], xs, ys);
    } else {
      HeadAndTail(xs, ys);
      SeqAssoc([[x[0]] + xs[0]], xs[1..], ys);
    }
  }

  /** The head and tail of a concatenation whose first part is not empty. */
  lemma HeadAndTail<T>(a: seq<T>, b: seq<T>)
    requires |a| > 0
    ensures (a + b)[0] == a[0] && (a + b)[1..] == a[1..] + b
  {
  }

  lemma SeparatedHeadAndTail(x: string, y: string, sep: char)
    requires |x| > 0
    ensures (x + [sep] + y)[0] == x[0] && (x + [sep] + y)[1..] == x[1..] + [sep] + y
  {
  }

  lemma SeqAssoc<T>(a: seq<T>, b: seq<T>, c: seq<T>)
    ensures a + (b + c) == (a + b) + c
  {
  }

  lemma {:induction false} NonEmptyFieldsAppend(a: seq<string>, b: seq<string>)
    requires forall k :: 0 <= k < |a| ==> '/' !in a[k]
    requires forall k :: 0 <= k < |b| ==> '/' !in b[k]
    ensures NonEmptyFields(a + b) == NonEmptyFields(a) + NonEmptyFields(b)
  {
    if |a| == 0 {
      assert a + b == b;
    } else {
      assert (a + b)[0] == a[0] && (a + b)[1..] == a[1..] + b;
      NonEmptyFieldsAppend(a[1..], b);
    }
  }

  /** The components of "x/y" are those of x followed by those of y. */
  lemma ComponentsAtSlash(x: string, y: string)
    ensures Components(x + "/" + y) == Components(x) + Components(y)
  {
    SplitAtSeparator(x, y, '/');
    SplitFieldsNoSlash(x);
    SplitFieldsNoSlash(y);
    NonEmptyFieldsAppend(Split(x, '/'), Split(y, '/'));
  }

  /** Joining twice is joining once with the two relative parts separated by '/'. */
  lemma JoinTwice(base: Path, x: string, y: string)
    requires |x| > 0 && x[0] != '/' && !(|y| > 0 && y[0] == '/')
    ensures PathJoin(PathJoin(base, x), y) == PathJoin(base, x + "/" + y)
  {
    ComponentsAtSlash(x, y);
    assert (x + "/" + y)[0] == x[0];
  }

  /** No field of a split holds the separator. */
  lemma SplitFieldsNoSlash(s: string)
    ensures forall k :: 0 <= k < |Split(s, '/')| ==> '/' !in Split(s, '/')[k]
  {
    SplitFields(s, '/', c => true);
  }

  /** A string without '/' splits into itself. */
  lemma {:induction false} SplitWithoutSeparator(s: string, sep: char)
    requires sep !in s
    ensures Split(s, sep) == [s]
  {
    if |s| > 0 {
      assert sep !in s[1..];
      SplitWithoutSeparator(s[1..], sep);
      assert [s[0]] + s[1..] == s;
    }
  }

  /** A plain name joins as one component. */
  lemma JoinName(base: Path, name: string)
    requires |name| > 0 && '/' !in name
    ensures PathJoin(base, name) == base + [name]
  {
    SplitWithoutSeparator(name, '/');
    assert [name][1..] == [];
    assert NonEmptyFields([name]) == [name] + NonEmptyFields([]);
  }

  /** How a path prints in an error message. */
  function DisplayPath(p: Path): string {
    "/" + Join(p, "/")
  }

  // ---------------------------------------------------------------------------
  // File names
  // ---------------------------------------------------------------------------

  /** The name stem of both files: padded id, '_', and the slug with '-' turned into '_'. */
  function Stem(question: Problem): string {
    RustTools.AddLeadingZeros(question.questionId) + "_" + ReplaceEveryChar(question.titleSlug, '-', '_')
  }

  function Extension(language: RustLanguages.SupportedLanguage): (r: string)
    ensures r in {"py", "ts", "cc", "rs"}
  {
    RustTools.SupportedExtensions(language, language);
    RustTools.FileExtension(RustLanguages.Display(language))
  }

  /** The exercise file name of create_exercise. */
  function ExerciseFileName(question: Problem, language: RustLanguages.SupportedLanguage): string {
    Stem(question) + "." + Extension(language)
  }

  /** The test file name of create_test. */
  function TestFileName(question: Problem, language: RustLanguages.SupportedLanguage): string {
    Stem(question) + "_test." + Extension(language)
  }

  /**
   * The names never collide: for the same problem and language the test file is the
   * exercise file with `_test` before the extension.
   */
  lemma FileNamesDiffer(question: Problem, language: RustLanguages.SupportedLanguage)
    ensures TestFileName(question, language) != ExerciseFileName(question, language)
    ensures var ex := ExerciseFileName(question, language);
      var dot := |Stem(question)|;
      TestFileName(question, language) == ex[..dot] + "_test" + ex[dot..]
  {
    assert |TestFileName(question, language)| == |ExerciseFileName(question, language)| + 5;
  }

  /** The exercise file goes to `<target>/<language>/<name>`. */
  function ExercisePath(fu: FileUtils, question: Problem, language: RustLanguages.SupportedLanguage): Path {
    fu.targetDirectory + [RustLanguages.Display(language), ExerciseFileName(question, language)]
  }

  function TestPath(fu: FileUtils, question: Problem, language: RustLanguages.SupportedLanguage): Path {
    fu.targetDirectory + [RustLanguages.Display(language), TestFileName(question, language)]
  }

  function ExerciseTemplatePath(fu: FileUtils, language: RustLanguages.SupportedLanguage): Path {
    fu.templatesDirectory + [RustLanguages.Display(language), "exercise_template." + Extension(language)]
  }

  function TestTemplatePath(fu: FileUtils, language: RustLanguages.SupportedLanguage): Path {
    fu.templatesDirectory + [RustLanguages.Display(language), "test_template." + Extension(language)]
  }

  // ---------------------------------------------------------------------------
  // File I/O
  // ---------------------------------------------------------------------------

  /**
   * read_file: `File::open` fails with its context message when nothing is at the path; a
   * directory opens but reading it fails with the plain OS error.
   */
  method ReadFile(h: Host, p: Path) returns (r: Result<string>)
    ensures r.Success? <==> p in h.files
    ensures r.Success? ==> r.value == h.files[p]
    ensures p !in h.files && p !in h.dirs ==> r == Failure("Failed to read file: " + DisplayPath(p))
  {
    var read := h.ReadFile(p);
    if read.Success? {
      return Success(read.value);
    }
    if p in h.dirs {
      return Failure("Is a directory (os error 21)");
    }
    return Failure("Failed to read file: " + DisplayPath(p));
  }

  /** write_file: creates or truncates the file and writes the content. */
  method WriteFile(h: Host, p: Path, content: string) returns (st: Status)
    requires h.Valid()
    modifies h
    ensures h.Valid() && h.dirs == old(h.dirs) && h.cwd == old(h.cwd)
    ensures st.Done? <==> Writable(old(h.files), old(h.dirs), p)
    ensures h.files == if st.Done? then old(h.files)[p := content] else old(h.files)
    ensures st.Error? ==> st.message == "Failed to create file: " + DisplayPath(p)
  {
    st := h.WriteFile(p, content);
    if st.Error? {
      st := Error("Failed to create file: " + DisplayPath(p));
    }
  }

  /**
   * create_exercise: finds the snippet first and fails before touching any file when there
   * is none; then fills the exercise template and writes it, returning the file name.
   */
  method CreateExercise(h: Host, fu: FileUtils, question: Problem, language: RustLanguages.SupportedLanguage,
                        sanitize: string -> string) returns (r: Result<string>)
    requires h.Valid()
    modifies h
    ensures h.Valid() && h.dirs == old(h.dirs) && h.cwd == old(h.cwd)
    ensures var snippet := RustTools.CodeSnippetByLang(question.codeSnippets, language);
      && (snippet.Failure? ==> r == Failure(snippet.error))
      && (r.Success? <==> snippet.Success? && ExerciseTemplatePath(fu, language) in old(h.files)
                          && Writable(old(h.files), old(h.dirs), ExercisePath(fu, question, language)))
      && (r.Success? ==>
            r.value == ExerciseFileName(question, language)
            && h.files == old(h.files)[ExercisePath(fu, question, language) :=
                 RustTools.FillExerciseTemplate(old(h.files)[ExerciseTemplatePath(fu, language)],
                                                question, snippet.value, sanitize).value])
    ensures r.Failure? ==> h.files == old(h.files)
  {
    var snippet := RustTools.CodeSnippetByLang(question.codeSnippets, language);
    if snippet.Failure? {
      return Failure(snippet.error);
    }
    var template := ReadFile(h, ExerciseTemplatePath(fu, language));
    if template.Failure? {
      return Failure(template.error);
    }
    var content := RustTools.FillExerciseTemplate(template.value, question, snippet.value, sanitize);
    var fileName := ExerciseFileName(question, language);
    var st := WriteFile(h, ExercisePath(fu, question, language), content.value);
    if st.Error? {
      return Failure(st.message);
    }
    return Success(fileName);
  }

  /** create_test: fills the test template with its own file name and writes it. */
  method CreateTest(h: Host, fu: FileUtils, question: Problem, language: RustLanguages.SupportedLanguage,
                    toCamel: string -> string) returns (r: Result<string>)
    requires h.Valid()
    modifies h
    ensures h.Valid() && h.dirs == old(h.dirs) && h.cwd == old(h.cwd)
    ensures r.Success? <==> TestTemplatePath(fu, language) in old(h.files)
                            && Writable(old(h.files), old(h.dirs), TestPath(fu, question, language))
    ensures r.Success? ==>
      r.value == TestFileName(question, language)
      && h.files == old(h.files)[TestPath(fu, question, language) :=
           RustTools.FillTestTemplate(old(h.files)[TestTemplatePath(fu, language)], question,
                                      TestFileName(question, language), toCamel).value]
    ensures r.Failure? ==> h.files == old(h.files)
  {
    var fileName := TestFileName(question, language);
    var template := ReadFile(h, TestTemplatePath(fu, language));
    if template.Failure? {
      return Failure(template.error);
    }
    var content := RustTools.FillTestTemplate(template.value, question, fileName, toCamel);
    var st := WriteFile(h, TestPath(fu, question, language), content.value);
    if st.Error? {
      return Failure(st.message);
    }
    return Success(fileName);
  }

  /** Writing the test file after the exercise file keeps the exercise file. */
  lemma TestKeepsExercise(fu: FileUtils, question: Problem, language: RustLanguages.SupportedLanguage)
    ensures ExercisePath(fu, question, language) != TestPath(fu, question, language)
  {
    FileNamesDiffer(question, language);
    var ex := ExercisePath(fu, question, language);
    var t := TestPath(fu, question, language);
    assert ex[|ex| - 1] != t[|t| - 1];
  }

  // ---------------------------------------------------------------------------
  // Copies and directories
  // ---------------------------------------------------------------------------

  /** copy_file: `fs::copy`, reporting the error it gets. */
  method CopyFile(h: Host, from: Path, to: Path) returns (st: Status)
    requires h.Valid()
    modifies h
    ensures h.Valid() && h.dirs == old(h.dirs) && h.cwd == old(h.cwd)
    ensures st.Done? <==> from in old(h.files) && Writable(old(h.files), old(h.dirs), to)
    ensures h.files == if st.Done? then old(h.files)[to := old(h.files)[from]] else old(h.files)
  {
    st := h.CopyFile(from, to);
  }

  /** The target of copy_file_to_root: the last '/'-field of the path, under the target directory. */
  function RootTarget(fu: FileUtils, filePath: string): Path {
    PathJoin(fu.targetDirectory, LastField(filePath, '/'))
  }

  /** The target of copy_file_to_lang: the whole relative path, under the target directory. */
  function LangTarget(fu: FileUtils, filePath: string): Path {
    PathJoin(fu.targetDirectory, filePath)
  }

  /** copy_file_to_root. `split("/").last()` always yields a field, so its error is unreachable. */
  method CopyFileToRoot(h: Host, fu: FileUtils, filePath: string) returns (st: Status)
    requires h.Valid()
    modifies h
    ensures h.Valid() && h.dirs == old(h.dirs) && h.cwd == old(h.cwd)
    ensures var from := PathJoin(fu.templatesDirectory, filePath);
      var to := RootTarget(fu, filePath);
      && (st.Done? <==> from in old(h.files) && Writable(old(h.files), old(h.dirs), to))
      && h.files == if st.Done? then old(h.files)[to := old(h.files)[from]] else old(h.files)
  {
    st := CopyFile(h, PathJoin(fu.templatesDirectory, filePath), RootTarget(fu, filePath));
  }

  /** copy_file_to_lang. */
  method CopyFileToLang(h: Host, fu: FileUtils, filePath: string) returns (st: Status)
    requires h.Valid()
    modifies h
    ensures h.Valid() && h.dirs == old(h.dirs) && h.cwd == old(h.cwd)
    ensures var from := PathJoin(fu.templatesDirectory, filePath);
      var to := LangTarget(fu, filePath);
      && (st.Done? <==> from in old(h.files) && Writable(old(h.files), old(h.dirs), to))
      && h.files == if st.Done? then old(h.files)[to := old(h.files)[from]] else old(h.files)
  {
    st := CopyFile(h, PathJoin(fu.templatesDirectory, filePath), LangTarget(fu, filePath));
  }

  /**
   * The root copy lands directly in the target directory, named after the file; the
   * language copy keeps the directories of the path. For a bare file name they agree.
   */
  lemma CopyTargets(fu: FileUtils, dir: string, name: string)
    requires |dir| > 0 && dir[0] != '/' && '/' !in dir
    requires |name| > 0 && '/' !in name
    ensures RootTarget(fu, dir + "/" + name) == fu.targetDirectory + [name]
    ensures LangTarget(fu, dir + "/" + name) == fu.targetDirectory + [dir, name]
    ensures RootTarget(fu, name) == LangTarget(fu, name)
  {
    SplitWithoutSeparator(dir, '/');
    SplitWithoutSeparator(name, '/');
    SplitAround(dir, name);
    JoinName(fu.targetDirectory, name);
  }

  /** Splitting `a + "/" + b`, where neither part holds '/', gives the two parts. */
  lemma {:induction false} SplitAround(a: string, b: string)
    requires '/' !in a && '/' !in b
    ensures Split(a + "/" + b, '/') == [a, b]
  {
    SplitWithoutSeparator(b, '/');
    if |a| == 0 {
      assert a + "/" + b == "/" + b;
      assert ("/" + b)[1..] == b;
    } else {
      SplitAround(a[1..], b);
      assert (a + "/" + b)[1..] == a[1..] + "/" + b;
      assert [a[0]] + a[1..] == a;
    }
  }

  /** create_directory: `create_dir_all` with a context message. */
  method CreateDirectory(h: Host, p: Path) returns (st: Status)
    requires h.Valid()
    modifies h
    ensures h.Valid() && h.files == old(h.files) && h.cwd == old(h.cwd)
    ensures st.Done? <==> old(h.files).Keys !! Prefixes(p)
    ensures h.dirs == if st.Done? then old(h.dirs) + Prefixes(p) else old(h.dirs)
    ensures st.Error? ==> st.message == "Failed to create directory at " + DisplayPath(p)
  {
    st := h.MakeDirs(p);
    if st.Error? {
      st := Error("Failed to create directory at " + DisplayPath(p));
    }
  }

  /** create_project_directory. */
  method CreateProjectDirectory(h: Host, fu: FileUtils) returns (st: Status)
    requires h.Valid()
    modifies h
    ensures h.Valid() && h.files == old(h.files) && h.cwd == old(h.cwd)
    ensures st.Done? <==> old(h.files).Keys !! Prefixes(fu.targetDirectory)
    ensures h.dirs == if st.Done? then old(h.dirs) + Prefixes(fu.targetDirectory) else old(h.dirs)
  {
    st := CreateDirectory(h, fu.targetDirectory);
  }

  /** create_language_directory: `<target>/<language>`, where both files of a problem go. */
  method CreateLanguageDirectory(h: Host, fu: FileUtils, language: RustLanguages.SupportedLanguage) returns (st: Status)
    requires h.Valid()
    modifies h
    ensures h.Valid() && h.files == old(h.files) && h.cwd == old(h.cwd)
    ensures var dir := fu.targetDirectory + [RustLanguages.Display(language)];
      && (st.Done? <==> old(h.files).Keys !! Prefixes(dir))
      && h.dirs == if st.Done? then old(h.dirs) + Prefixes(dir) else old(h.dirs)
    ensures st.Done? ==> forall question :: Dirname(ExercisePath(fu, question, language)) in h.dirs
                                            && Dirname(TestPath(fu, question, language)) in h.dirs
  {
    var dir := fu.targetDirectory + [RustLanguages.Display(language)];
    st := CreateDirectory(h, dir);
    if st.Done? {
      assert dir in Prefixes(dir) by { assert dir[..|dir|] == dir; }
      forall question
        ensures Dirname(ExercisePath(fu, question, language)) in h.dirs
        ensures Dirname(TestPath(fu, question, language)) in h.dirs
      {
        FilesInLanguageDir(fu, question, language);
      }
    }
  }

  /** Both files of a problem lie directly in `<target>/<language>`. */
  lemma FilesInLanguageDir(fu: FileUtils, question: Problem, language: RustLanguages.SupportedLanguage)
    ensures Dirname(ExercisePath(fu, question, language)) == fu.targetDirectory + [RustLanguages.Display(language)]
    ensures Dirname(TestPath(fu, question, language)) == fu.targetDirectory + [RustLanguages.Display(language)]
  {
    var dir := fu.targetDirectory + [RustLanguages.Display(language)];
    assert ExercisePath(fu, question, language) == dir + [ExerciseFileName(question, language)];
    assert TestPath(fu, question, language) == dir + [TestFileName(question, language)];
  }
}
