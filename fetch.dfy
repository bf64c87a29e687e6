/**
 * The `fetch <problem-slug>` command: finds the workspace, fetches the problem, checks the
 * requested language against the templates, initialises the language directory when it is
 * missing, refuses to overwrite an existing `problem_NNNN` directory unless forced, and
 * creates the exercise files from the workspace root. The working directory is restored
 * after each step that changes it, whether the step fails or not.
 */
module Fetch {
  import opened Wrappers
  import opened Strings
  import opened FileSystem
  import opened LeetCode
  import opened Naming
  import Templates
  import ProblemFiles
  import Workspace

  /** `problem_` followed by the padded front-end id. */
  function ProblemName(problem: Problem): (r: string)
    ensures StartsWith(r, "problem_") && |r| >= 12
  {
    "problem_" + PaddedId(problem.questionFrontendId)
  }

  /** The directory whose existence fetch treats as an existing exercise. */
  function ConflictPath(root: Path, language: string, problem: Problem): (r: Path)
    ensures |r| == |root| + 2 && r[..|root|] == root && r[|root|] == language
  {
    root + [language, ProblemName(problem)]
  }

  /** The workspace root found from `cwd`, or `/` when there is none. */
  ghost function RootOf(files: map<Path, string>, dirs: set<Path>, cwd: Path): Path {
    match Workspace.NearestRoot(files, dirs, cwd)
    case Some(root) => root
    case None => []
  }

  /**
   * The request gets past every guard that comes before the language directory: a
   * workspace was found, the problem was fetched, the templates directory can be listed,
   * and a non-empty language with a template was named.
   */
  ghost predicate Accepted(files: map<Path, string>, dirs: set<Path>, cwd: Path, tsTemplates: Path,
                           fetched: Result<Problem>, language: Option<string>)
  {
    && Workspace.NearestRoot(files, dirs, cwd).Some?
    && fetched.Success?
    && tsTemplates in dirs
    && language.Some? && language.value != ""
    && tsTemplates + [language.value] in dirs
  }

  /**
   * The fetch action. `fetched` is the outcome of the network fetch of the problem, which
   * the command performs after it has found the workspace; `tsTemplates` is the templates
   * directory the language list and the initialisation read, `foTemplates` the one the
   * exercise files are made from.
   */
  method FetchAction(h: Host, tsTemplates: Path, foTemplates: Path, fetched: Result<Problem>,
                     language: Option<string>, force: bool) returns (st: Status)
    requires h.Valid()
    modifies h
    ensures h.Valid() && h.cwd == old(h.cwd)
    // No workspace: nothing is fetched and nothing changes.
    ensures Workspace.NearestRoot(old(h.files), old(h.dirs), old(h.cwd)).None? ==>
      st == Done && h.files == old(h.files) && h.dirs == old(h.dirs)
    // The fetch comes before any check of the language.
    ensures Workspace.NearestRoot(old(h.files), old(h.dirs), old(h.cwd)).Some? && fetched.Failure? ==>
      st == Error(fetched.error) && h.files == old(h.files) && h.dirs == old(h.dirs)
    ensures Workspace.NearestRoot(old(h.files), old(h.dirs), old(h.cwd)).Some? && fetched.Success?
            && tsTemplates !in old(h.dirs) ==>
      st.Error? && StartsWith(st.message, "Failed to read templates directory: ")
      && h.files == old(h.files) && h.dirs == old(h.dirs)
    ensures Workspace.NearestRoot(old(h.files), old(h.dirs), old(h.cwd)).Some? && fetched.Success?
            && tsTemplates in old(h.dirs) && (language.None? || language.value == "") ==>
      st == Error("Please specify a language with --language <lang>")
      && h.files == old(h.files) && h.dirs == old(h.dirs)
    ensures Workspace.NearestRoot(old(h.files), old(h.dirs), old(h.cwd)).Some? && fetched.Success?
            && tsTemplates in old(h.dirs) && language.Some? && language.value != ""
            && tsTemplates + [language.value] !in old(h.dirs) ==>
      st == Error("Language '" + language.value + "' not supported.")
      && h.files == old(h.files) && h.dirs == old(h.dirs)
    // Only an accepted request changes anything.
    ensures !Accepted(old(h.files), old(h.dirs), old(h.cwd), tsTemplates, fetched, language) ==>
      st.Error? || Workspace.NearestRoot(old(h.files), old(h.dirs), old(h.cwd)).None?
    // An existing exercise directory is kept unless forced.
    ensures Accepted(old(h.files), old(h.dirs), old(h.cwd), tsTemplates, fetched, language) && !force
            && Exists(old(h.files), old(h.dirs),
                      ConflictPath(RootOf(old(h.files), old(h.dirs), old(h.cwd)), language.value, fetched.value)) ==>
      st == Error("Exercise '" + ProblemName(fetched.value) + "' already exists in " + language.value)
      && h.files == old(h.files) && h.dirs == old(h.dirs)
    // With the language directory in place, the exercise files are created from the root.
    ensures Accepted(old(h.files), old(h.dirs), old(h.cwd), tsTemplates, fetched, language)
            && Exists(old(h.files), old(h.dirs), RootOf(old(h.files), old(h.dirs), old(h.cwd)) + [language.value])
            && (force || !Exists(old(h.files), old(h.dirs),
                                 ConflictPath(RootOf(old(h.files), old(h.dirs), old(h.cwd)), language.value, fetched.value))) ==>
      var pl := ProblemFiles.PlanFor(RootOf(old(h.files), old(h.dirs), old(h.cwd)), foTemplates, fetched.value, language.value);
      && (st.Done? <==> ProblemFiles.CreateSucceeds(old(h.files), old(h.dirs), pl))
      && (st.Done? ==> h.dirs == old(h.dirs) + ProblemFiles.NewDirs(pl)
                       && h.files == ProblemFiles.CreatedFiles(old(h.files), pl))
    // A missing language directory is initialised from its template first.
    ensures Accepted(old(h.files), old(h.dirs), old(h.cwd), tsTemplates, fetched, language)
            && !Exists(old(h.files), old(h.dirs), RootOf(old(h.files), old(h.dirs), old(h.cwd)) + [language.value])
            && st.Done? ==>
      var languageDir := RootOf(old(h.files), old(h.dirs), old(h.cwd)) + [language.value];
      && Templates.InitSucceeds(old(h.files), old(h.dirs), tsTemplates + [language.value], languageDir)
      && old(h.dirs) + Prefixes(languageDir) <= h.dirs
    // A successful run leaves the exercise file in place.
    ensures st.Done? && Accepted(old(h.files), old(h.dirs), old(h.cwd), tsTemplates, fetched, language) ==>
      ProblemFiles.PlanFor(RootOf(old(h.files), old(h.dirs), old(h.cwd)), foTemplates, fetched.value, language.value).exercisePath
        in h.files
  {
    var root := Workspace.FindWorkspaceRoot(h, h.cwd);
    if root.None? {
      return Done;
    }
    if fetched.Failure? {
      return Error(fetched.error);
    }
    var problem := fetched.value;
    var available := Templates.GetAvailableLanguages(h, tsTemplates);
    if available.Failure? {
      return Error(available.error);
    }
    if language.None? || language.value == "" {
      return Error("Please specify a language with --language <lang>");
    }
    var lang := language.value;
    if lang !in available.value {
      return Error("Language '" + lang + "' not supported.");
    }
    assert RootOf(old(h.files), old(h.dirs), old(h.cwd)) == root.value;
    st := FetchInto(h, tsTemplates, foTemplates, root.value, problem, lang, force);
  }

  /**
   * The part of the fetch action after its guards: initialise the language directory when
   * it is missing, refuse an existing exercise unless forced, then create the files.
   */
  method FetchInto(h: Host, tsTemplates: Path, foTemplates: Path, root: Path, problem: Problem,
                   language: string, force: bool) returns (st: Status)
    requires h.Valid()
    modifies h
    ensures h.Valid() && h.cwd == old(h.cwd)
    ensures !force && Exists(old(h.files), old(h.dirs), ConflictPath(root, language, problem)) ==>
      st == Error("Exercise '" + ProblemName(problem) + "' already exists in " + language)
      && h.files == old(h.files) && h.dirs == old(h.dirs)
    ensures Exists(old(h.files), old(h.dirs), root + [language])
            && (force || !Exists(old(h.files), old(h.dirs), ConflictPath(root, language, problem))) ==>
      var pl := ProblemFiles.PlanFor(root, foTemplates, problem, language);
      && (st.Done? <==> ProblemFiles.CreateSucceeds(old(h.files), old(h.dirs), pl))
      && (st.Done? ==> h.dirs == old(h.dirs) + ProblemFiles.NewDirs(pl)
                       && h.files == ProblemFiles.CreatedFiles(old(h.files), pl))
    ensures !Exists(old(h.files), old(h.dirs), root + [language]) && st.Done? ==>
      && Templates.InitSucceeds(old(h.files), old(h.dirs), tsTemplates + [language], root + [language])
      && old(h.dirs) + Prefixes(root + [language]) <= h.dirs
    ensures st.Done? ==> ProblemFiles.PlanFor(root, foTemplates, problem, language).exercisePath in h.files
  {
    var languageDir := root + [language];
    ConflictNeedsLanguageDir(h, root, language, problem);
    if !Exists(h.files, h.dirs, languageDir) {
      st := InitializeFromRoot(h, tsTemplates, root, language);
      if st.Error? {
        return;
      }
    }
    if Exists(h.files, h.dirs, ConflictPath(root, language, problem)) && !force {
      return Error("Exercise '" + ProblemName(problem) + "' already exists in " + language);
    }
    st := CreateFromRoot(h, foTemplates, root, problem, language);
  }

  /** Initialises the language directory with the working directory moved to the root, then restores it. */
  method InitializeFromRoot(h: Host, tsTemplates: Path, root: Path, language: string) returns (st: Status)
    requires h.Valid()
    modifies h
    ensures h.Valid() && h.cwd == old(h.cwd)
    ensures (st.Done? <==> Templates.InitSucceeds(old(h.files), old(h.dirs), tsTemplates + [language], root + [language]))
    ensures st.Done? ==> old(h.dirs) + Prefixes(root + [language]) <= h.dirs
  {
    var originalCwd := h.cwd;
    h.Chdir(root);
    st := Templates.InitializeLanguage(h, tsTemplates, language);
    h.Chdir(originalCwd);
  }

  /** Creates the exercise files with the working directory moved to the root, then restores it. */
  method CreateFromRoot(h: Host, foTemplates: Path, root: Path, problem: Problem, language: string) returns (st: Status)
    requires h.Valid()
    modifies h
    ensures h.Valid() && h.cwd == old(h.cwd)
    ensures var pl := ProblemFiles.PlanFor(root, foTemplates, problem, language);
      && (st.Done? <==> ProblemFiles.CreateSucceeds(old(h.files), old(h.dirs), pl))
      && (st.Done? ==> h.dirs == old(h.dirs) + ProblemFiles.NewDirs(pl)
                       && h.files == ProblemFiles.CreatedFiles(old(h.files), pl)
                       && pl.exercisePath in h.files)
  {
    var originalCwd := h.cwd;
    h.Chdir(root);
    st := ProblemFiles.CreateProblemFiles(h, foTemplates, problem, language);
    h.Chdir(originalCwd);
    if st.Done? {
      ProblemFiles.ExerciseFileCreated(old(h.files), old(h.dirs), ProblemFiles.PlanFor(root, foTemplates, problem, language));
    }
  }

  /** On a valid host an existing exercise directory lies inside an existing language directory. */
  lemma ConflictNeedsLanguageDir(h: Host, root: Path, language: string, problem: Problem)
    requires h.Valid()
    ensures Exists(h.files, h.dirs, ConflictPath(root, language, problem)) ==> root + [language] in h.dirs
  {
    var p := ConflictPath(root, language, problem);
    assert Dirname(p) == root + [language];
  }

  /**
   * The conflict check looks at `<language>/problem_NNNN` for every language, which is where
   * the exercise lives only in the flat layouts: the Rust exercise `src/problem_NNNN.rs` and
   * the Kotlin and Java packages under `src/main` never lie under it, so an existing
   * exercise in those languages is overwritten without `--force`.
   */
  lemma ConflictPathOnlyForFlatLayouts(root: Path, foTemplates: Path, problem: Problem, language: string)
    ensures var pl := ProblemFiles.PlanFor(root, foTemplates, problem, language);
      && (ConflictPath(root, language, problem) == pl.problemDir <==> !ProblemFiles.IsJvm(language) && language != "rust")
      && (ConflictPath(root, language, problem) <= pl.exercisePath <==> !ProblemFiles.IsJvm(language) && language != "rust")
  {
    var pl := ProblemFiles.PlanFor(root, foTemplates, problem, language);
    var c := ConflictPath(root, language, problem);
    var k := |root| + 1;
    if ProblemFiles.IsJvm(language) || language == "rust" {
      assert pl.problemDir[k] == "src" && pl.exercisePath[k] == "src";
      assert c[k] == ProblemName(problem) && |c[k]| >= 12;
      assert c[k] != pl.exercisePath[k];
    } else {
      assert pl.problemDir == c;
      assert pl.exercisePath == c + [pl.exercisePath[|c|]];
    }
  }
}
