/**
 * `leetkick test <problem>`: locating the problem's directory inside a language workspace
 * and choosing the test runner for the language.
 */
module TestCommand {
  import opened Wrappers
  import opened Strings
  import opened FileSystem
  import opened Naming
  import Workspace
  import Templates

  /** The first name in `names` that starts with `prefix` (Array.prototype.find). */
  function FirstWithPrefix(names: seq<string>, prefix: string): (r: Option<string>)
    ensures r.None? <==> forall i :: 0 <= i < |names| ==> !StartsWith(names[i], prefix)
    ensures r.Some? ==> exists i :: 0 <= i < |names| && names[i] == r.value && StartsWith(r.value, prefix)
                                    && forall j :: 0 <= j < i ==> !StartsWith(names[j], prefix)
  {
    if |names| == 0 then None
    else if StartsWith(names[0], prefix) then Some(names[0])
    else
      var r := FirstWithPrefix(names[1..], prefix);
      r
  }

  /** The first name in `names` that contains `pattern`. */
  function FirstContaining(names: seq<string>, pattern: string): (r: Option<string>)
    ensures r.None? <==> forall i :: 0 <= i < |names| ==> !Contains(names[i], pattern)
    ensures r.Some? ==> exists i :: 0 <= i < |names| && names[i] == r.value && Contains(r.value, pattern)
                                    && forall j :: 0 <= j < i ==> !Contains(names[j], pattern)
  {
    if |names| == 0 then None
    else if Contains(names[0], pattern) then Some(names[0])
    else
      var r := FirstContaining(names[1..], pattern);
      r
  }

  /** The prefix the number step looks for: "1" gives "0001_". */
  function NumberPrefix(problem: string): string {
    PaddedId(problem) + "_"
  }

  /** The pattern the slug step looks for: only the first '-' becomes '_'. */
  function SlugPattern(problem: string): string {
    ReplaceFirstChar(problem, '-', '_')
  }

  /**
   * The search of findProblemDirectory over the directory names: the exact name, else the
   * first name with the number prefix, else the first name containing the slug pattern; a
   * found name counts only when it is not empty (JavaScript truthiness).
   */
  function Locate(directories: seq<string>, problem: string): (r: Option<string>)
    ensures r.Some? ==> r.value in directories
                        && (r.value == problem || StartsWith(r.value, NumberPrefix(problem))
                            || Contains(r.value, SlugPattern(problem)))
  {
    if problem in directories then Some(problem)
    else
      var byNumber := FirstWithPrefix(directories, NumberPrefix(problem));
      if byNumber.Some? && byNumber.value != "" then byNumber
      else
        var bySlug := FirstContaining(directories, SlugPattern(problem));
        if bySlug.Some? && bySlug.value != "" then bySlug
        else None
  }

  /** An exact directory name wins over every other match. */
  lemma LocateExact(directories: seq<string>, problem: string)
    requires problem in directories
    ensures Locate(directories, problem) == Some(problem)
  {
  }

  /** Without an exact name, the first directory with the number prefix wins over any slug match. */
  lemma LocateByNumber(directories: seq<string>, problem: string, i: nat)
    requires problem !in directories
    requires i < |directories| && StartsWith(directories[i], NumberPrefix(problem))
    requires forall j :: 0 <= j < i ==> !StartsWith(directories[j], NumberPrefix(problem))
    ensures Locate(directories, problem) == Some(directories[i])
  {
    var r := FirstWithPrefix(directories, NumberPrefix(problem));
    var k :| 0 <= k < |directories| && directories[k] == r.value && StartsWith(r.value, NumberPrefix(problem))
             && forall j :: 0 <= j < k ==> !StartsWith(directories[j], NumberPrefix(problem));
    assert k == i;
  }

  /** With neither an exact name nor a number match, the first slug match is the answer. */
  lemma LocateBySlug(directories: seq<string>, problem: string, i: nat)
    requires problem !in directories
    requires forall j :: 0 <= j < |directories| ==> !StartsWith(directories[j], NumberPrefix(problem))
    requires i < |directories| && directories[i] != "" && Contains(directories[i], SlugPattern(problem))
    requires forall j :: 0 <= j < i ==> !Contains(directories[j], SlugPattern(problem))
    ensures Locate(directories, problem) == Some(directories[i])
  {
    var r := FirstContaining(directories, SlugPattern(problem));
    var k :| 0 <= k < |directories| && directories[k] == r.value && Contains(r.value, SlugPattern(problem))
             && forall j :: 0 <= j < k ==> !Contains(directories[j], SlugPattern(problem));
    assert k == i;
  }

  /** Nothing is found exactly when no non-empty directory name matches any step. */
  lemma LocateNone(directories: seq<string>, problem: string)
    requires "" !in directories
    ensures Locate(directories, problem).None? <==>
      forall d :: d in directories ==> d != problem && !StartsWith(d, NumberPrefix(problem))
                                       && !Contains(d, SlugPattern(problem))
  {
    var byNumber := FirstWithPrefix(directories, NumberPrefix(problem));
    var bySlug := FirstContaining(directories, SlugPattern(problem));
    if byNumber.Some? {
      var i :| 0 <= i < |directories| && directories[i] == byNumber.value && StartsWith(byNumber.value, NumberPrefix(problem))
               && forall j :: 0 <= j < i ==> !StartsWith(directories[j], NumberPrefix(problem));
      assert directories[i] in directories;
    }
    if bySlug.Some? {
      var i :| 0 <= i < |directories| && directories[i] == bySlug.value && Contains(bySlug.value, SlugPattern(problem))
               && forall j :: 0 <= j < i ==> !Contains(directories[j], SlugPattern(problem));
      assert directories[i] in directories;
    }
  }

  /**
   * The number step never matches a directory of the flat layout: a short id pads to a
   * prefix starting with '0', and every such directory starts with 'p'.
   */
  lemma NumberStepMissesFlatLayout(problem: string, d: string)
    requires |problem| < 4 && StartsWith(d, "problem_")
    ensures !StartsWith(d, NumberPrefix(problem))
  {
    assert NumberPrefix(problem)[0] == '0';
    assert d[0] == 'p';
  }

  /**
   * A short number id reaches a flat-layout directory only by containment, so the first
   * directory in listing order that contains the id wins.
   */
  lemma ShortIdMatchesBySlug(directories: seq<string>, problem: string, i: nat)
    requires |problem| < 4 && problem !in directories
    requires forall d :: d in directories ==> StartsWith(d, "problem_")
    requires i < |directories| && Contains(directories[i], SlugPattern(problem))
    requires forall j :: 0 <= j < i ==> !Contains(directories[j], SlugPattern(problem))
    ensures Locate(directories, problem) == Some(directories[i])
  {
    forall j | 0 <= j < |directories|
      ensures !StartsWith(directories[j], NumberPrefix(problem))
    {
      assert directories[j] in directories;
      NumberStepMissesFlatLayout(problem, directories[j]);
    }
    assert directories[i] in directories;
    assert directories[i] != "";
    LocateBySlug(directories, problem, i);
  }

  /** A directory name of the flat layout: `problem_` and the padded number. */
  predicate FlatLayoutName(d: string) {
    StartsWith(d, "problem_") && forall i :: 8 <= i < |d| ==> IsDigit(d[i])
  }

  lemma FlatLayoutNameHasNoT(d: string)
    requires FlatLayoutName(d)
    ensures 't' !in d
  {
    forall i | 0 <= i < |d|
      ensures d[i] != 't'
    {
      if i < 8 {
        assert d[i] == "problem_"[i];
      }
    }
  }

  /** A slug is not found among flat-layout directories: "two-sum" reaches none of them. */
  lemma SlugMissesFlatLayout(directories: seq<string>)
    requires forall d :: d in directories ==> FlatLayoutName(d)
    ensures Locate(directories, "two-sum") == None
  {
    TwoSumPatterns();
    forall d | d in directories
      ensures d != "two-sum" && !StartsWith(d, "two-sum_") && !Contains(d, "two_sum")
    {
      FlatLayoutNameHasNoT(d);
      assert "two-sum"[0] == 't';
      if Contains(d, "two_sum") {
        ContainsHead(d, "two_sum");
      }
    }
    LocateNone(directories, "two-sum");
  }

  lemma TwoSumPatterns()
    ensures NumberPrefix("two-sum") == "two-sum_"
    ensures SlugPattern("two-sum") == "two_sum"
  {
    assert "two-sum" == "two" + ['-'] + "sum";
    ReplaceFirstCharAt("two", "sum", '-', '_');
    assert "two" + ['_'] + "sum" == "two_sum";
  }

  /**
   * findProblemDirectory: the search over the directory entries of the language directory;
   * nothing when the directory cannot be read.
   */
  method FindProblemDirectory(h: Host, languageDir: Path, problem: string) returns (r: Option<string>)
    ensures languageDir !in h.dirs ==> r.None?
    ensures languageDir in h.dirs ==>
      exists entries :: IsListing(entries, h.files, h.dirs, languageDir)
                        && r == Locate(DirectoryNames(entries), problem)
    ensures r.Some? ==> languageDir + [r.value] in h.dirs
  {
    var entries := h.ReadDir(languageDir);
    if entries.Failure? {
      return None;
    }
    var directories := DirectoryNames(entries.value);
    r := Locate(directories, problem);
    if r.Some? {
      var e :| e in entries.value && e.name == r.value && e.isDirectory;
    }
  }

  // ---------------------------------------------------------------------------
  // runTests
  // ---------------------------------------------------------------------------

  /** A program and its arguments, run through the shell inside the language directory. */
  datatype Command = Command(program: string, args: seq<string>)

  /** The languages runTests knows how to test. */
  const TestedLanguages: set<string> := {"typescript", "javascript", "python", "java", "go", "rust", "cpp"}

  /** The runner for each language, given the problem directory. */
  function TestCommandFor(language: string, problemDir: string): (r: Result<Command>)
    ensures r.Success? <==> language in TestedLanguages
    ensures r.Failure? ==> r.error == "Testing not implemented for language: " + language
    ensures language in {"typescript", "javascript"} ==>
      r == Success(Command("node", ["--test", problemDir + "/*.test.ts", problemDir + "/*.test.js"]))
    ensures language == "python" ==> r == Success(Command("python", ["-m", "pytest", problemDir + "/", "-v"]))
    ensures language == "java" ==> r == Success(Command("mvn", ["test", "-Dtest=**/" + problemDir + "/*Test"]))
    ensures language == "go" ==> r == Success(Command("go", ["test", "./" + problemDir + "/..."]))
    ensures language == "rust" ==>
      r == Success(Command("cargo", ["test", "--manifest-path", problemDir + "/Cargo.toml"]))
    ensures language == "cpp" ==> r == Success(Command("make", ["test", "-C", problemDir]))
  {
    match language
      case "typescript" | "javascript" =>
        Success(Command("node", ["--test", problemDir + "/*.test.ts", problemDir + "/*.test.js"]))
      case "python" => Success(Command("python", ["-m", "pytest", problemDir + "/", "-v"]))
      case "java" => Success(Command("mvn", ["test", "-Dtest=**/" + problemDir + "/*Test"]))
      case "go" => Success(Command("go", ["test", "./" + problemDir + "/..."]))
      case "rust" => Success(Command("cargo", ["test", "--manifest-path", problemDir + "/Cargo.toml"]))
      case "cpp" => Success(Command("make", ["test", "-C", problemDir]))
      case _ => Failure("Testing not implemented for language: " + language)
  }

  /** The argument that names the problem directory: fixed text around the directory. */
  function DirectoryArgument(language: string): (r: (nat, string, string))
  {
    match language
      case "typescript" | "javascript" => (1, "", "/*.test.ts")
      case "python" => (2, "", "/")
      case "java" => (1, "-Dtest=**/", "/*Test")
      case "go" => (1, "./", "/...")
      case "rust" => (2, "", "/Cargo.toml")
      case _ => (2, "", "")
  }

  /**
   * Every runner is handed the problem directory, inside a fixed argument: the directory can
   * be read back from the command, so different problems are never run by the same command.
   */
  lemma TestCommandNamesDirectory(language: string, problemDir: string)
    requires language in TestedLanguages
    ensures var (k, before, after) := DirectoryArgument(language);
      var args := TestCommandFor(language, problemDir).value.args;
      k < |args| && args[k] == before + problemDir + after
  {
  }

  lemma TestCommandIdentifiesDirectory(language: string, d1: string, d2: string)
    requires language in TestedLanguages
    requires TestCommandFor(language, d1) == TestCommandFor(language, d2)
    ensures d1 == d2
  {
    var (k, before, after) := DirectoryArgument(language);
    TestCommandNamesDirectory(language, d1);
    TestCommandNamesDirectory(language, d2);
    var a1, a2 := before + d1 + after, before + d2 + after;
    assert a1 == a2;
    assert d1 == a1[|before|..|a1| - |after|];
    assert d2 == a2[|before|..|a2| - |after|];
  }

  /** How the spawned runner ended: a close event with its exit code (null after a signal), or a spawn error. */
  datatype ChildOutcome = Closed(code: Option<int>) | SpawnFailed(message: string)

  function ExitCodeText(code: Option<int>): string {
    if code.Some? then IntToString(code.value) else "null"
  }

  /**
   * runTests: an unknown language is rejected before anything is spawned; otherwise the
   * runner's outcome decides.
   */
  function RunTests(language: string, problemDir: string, outcome: ChildOutcome): (st: Status)
    ensures st.Done? <==> language in TestedLanguages && outcome == Closed(Some(0))
    ensures language !in TestedLanguages ==> st == Error("Testing not implemented for language: " + language)
    ensures language in TestedLanguages && outcome.Closed? && outcome.code != Some(0) ==>
      st.Error? && StartsWith(st.message, "Tests failed with exit code ")
    ensures language in TestedLanguages && outcome.SpawnFailed? ==>
      st == Error("Failed to run tests: " + outcome.message)
  {
    var command := TestCommandFor(language, problemDir);
    if command.Failure? then Error(command.error)
    else match outcome
      case Closed(code) =>
        if code == Some(0) then Done
        else
          var prefix := "Tests failed with exit code ";
          assert (prefix + ExitCodeText(code))[..|prefix|] == prefix;
          Error(prefix + ExitCodeText(code))
      case SpawnFailed(m) => Error("Failed to run tests: " + m)
  }

  /** The failure message carries the exit code: different codes give different messages. */
  lemma ExitCodeReported(language: string, problemDir: string, c1: int, c2: int)
    requires language in TestedLanguages && c1 != 0 && c2 != 0 && c1 != c2
    ensures RunTests(language, problemDir, Closed(Some(c1))) != RunTests(language, problemDir, Closed(Some(c2)))
  {
    var prefix := "Tests failed with exit code ";
    var t1, t2 := IntToString(c1), IntToString(c2);
    if prefix + t1 == prefix + t2 {
      assert t1 == (prefix + t1)[|prefix|..];
      assert t2 == (prefix + t2)[|prefix|..];
      IntToStringInjective(c1, c2);
    }
  }

  // ---------------------------------------------------------------------------
  // The test action
  // ---------------------------------------------------------------------------

  /**
   * What follows the search: a name that was not found, or is empty (falsy in JavaScript),
   * is reported; otherwise the runner is started on it.
   */
  function AfterSearch(language: string, problem: string, found: Option<string>, outcome: ChildOutcome): (st: Status)
    ensures found.None? || found.value == "" ==>
      st == Error("Problem '" + problem + "' not found in " + language + " workspace.")
    ensures st.Done? <==> found.Some? && found.value != "" && language in TestedLanguages && outcome == Closed(Some(0))
  {
    if found.None? || found.value == "" then Error("Problem '" + problem + "' not found in " + language + " workspace.")
    else RunTests(language, found.value, outcome)
  }

  /**
   * The test action, which only reads the file system: the guards in order (workspace,
   * templates listing, language named, language available, language directory, problem
   * directory), then the runner whose outcome is `outcome`.
   */
  method TestAction(h: Host, tsTemplates: Path, problem: string, language: Option<string>,
                    outcome: ChildOutcome) returns (st: Status)
    requires h.Valid()
    ensures Workspace.NearestRoot(h.files, h.dirs, h.cwd).None? ==> st == Done
    ensures Workspace.NearestRoot(h.files, h.dirs, h.cwd).Some? && tsTemplates !in h.dirs ==>
      st.Error? && StartsWith(st.message, "Failed to read templates directory: ")
    ensures Workspace.NearestRoot(h.files, h.dirs, h.cwd).Some? && tsTemplates in h.dirs
            && (language.None? || language.value == "") ==>
      st == Error("Please specify a language with --language <lang>")
    ensures Workspace.NearestRoot(h.files, h.dirs, h.cwd).Some? && tsTemplates in h.dirs
            && language.Some? && language.value != "" && tsTemplates + [language.value] !in h.dirs ==>
      st == Error("Language '" + language.value + "' not supported.")
    ensures Workspace.NearestRoot(h.files, h.dirs, h.cwd).Some? && tsTemplates in h.dirs
            && language.Some? && language.value != "" && tsTemplates + [language.value] in h.dirs
            && !Exists(h.files, h.dirs, Workspace.NearestRoot(h.files, h.dirs, h.cwd).value + [language.value]) ==>
      st == Error(language.value + " workspace not found. Run \"leetkick add " + language.value + "\" first.")
    ensures Workspace.NearestRoot(h.files, h.dirs, h.cwd).Some? && tsTemplates in h.dirs
            && language.Some? && language.value != "" && tsTemplates + [language.value] in h.dirs
            && Exists(h.files, h.dirs, Workspace.NearestRoot(h.files, h.dirs, h.cwd).value + [language.value])
            && Workspace.NearestRoot(h.files, h.dirs, h.cwd).value + [language.value] in h.files ==>
      st == Error("Problem '" + problem + "' not found in " + language.value + " workspace.")
    // Inside the language directory, the search over its listing decides.
    ensures Workspace.NearestRoot(h.files, h.dirs, h.cwd).Some? && tsTemplates in h.dirs
            && language.Some? && language.value != "" && tsTemplates + [language.value] in h.dirs
            && Workspace.NearestRoot(h.files, h.dirs, h.cwd).value + [language.value] in h.dirs ==>
      exists entries :: IsListing(entries, h.files, h.dirs, Workspace.NearestRoot(h.files, h.dirs, h.cwd).value + [language.value])
        && st == AfterSearch(language.value, problem, Locate(DirectoryNames(entries), problem), outcome)
    // Success needs an available, testable language, an existing directory for the problem and a clean exit.
    ensures st.Done? && Workspace.NearestRoot(h.files, h.dirs, h.cwd).Some? ==>
      && language.Some? && tsTemplates + [language.value] in h.dirs && language.value in TestedLanguages
      && outcome == Closed(Some(0))
      && exists d :: d != "" && Workspace.NearestRoot(h.files, h.dirs, h.cwd).value + [language.value, d] in h.dirs
  {
    var root := Workspace.FindWorkspaceRoot(h, h.cwd);
    if root.None? {
      return Done;
    }
    var available := Templates.GetAvailableLanguages(h, tsTemplates);
    if available.Failure? {
      return Error(available.error);
    }
    if language.None? || language.value == "" {
      return Error("Please specify a language with --language <lang>");
    }
    var lang := language.value;
    if lang !in available.value {
      return Error("Language '" + lang + "' not supported.");
    }
    var languageDir := root.value + [lang];
    if !Exists(h.files, h.dirs, languageDir) {
      return Error(lang + " workspace not found. Run \"leetkick add " + lang + "\" first.");
    }
    assert languageDir in h.files ==> languageDir !in h.dirs;
    var problemDir := FindProblemDirectory(h, languageDir, problem);
    st := AfterSearch(lang, problem, problemDir, outcome);
    if st.Done? {
      assert languageDir + [problemDir.value] == root.value + [lang, problemDir.value];
    }
  }
}
