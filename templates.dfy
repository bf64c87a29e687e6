/**
 * The template store of the CLI: one directory per language, holding configuration
 * files copied once into a new language workspace, and per-problem templates whose names
 * contain `_template.`. The store's location is a parameter (`templatesDir`).
 */
module Templates {
  import opened Wrappers
  import opened Strings
  import opened FileSystem

  /**
   * getAvailableLanguages: the directories of the store, each once; an unreadable store is
   * reported with a wrapped message.
   */
  method GetAvailableLanguages(h: Host, templatesDir: Path) returns (r: Result<seq<string>>)
    ensures r.Success? <==> templatesDir in h.dirs
    ensures r.Success? ==> forall n :: n in r.value <==> templatesDir + [n] in h.dirs
    ensures r.Success? ==> forall i, j :: 0 <= i < j < |r.value| ==> r.value[i] != r.value[j]
    ensures r.Failure? ==> StartsWith(r.error, "Failed to read templates directory: ")
  {
    var entries := h.ReadDir(templatesDir);
    if entries.Failure? {
      var prefix := "Failed to read templates directory: ";
      var msg := prefix + entries.error;
      assert msg[..|prefix|] == prefix;
      return Failure(msg);
    }
    var names := DirectoryNames(entries.value);
    DirectoryNamesDistinct(entries.value);
    forall n | templatesDir + [n] in h.dirs
      ensures n in names
    {
      assert (templatesDir + [n])[..|templatesDir|] == templatesDir && (templatesDir + [n])[|templatesDir|] == n;
      assert n in ChildNames(h.files, h.dirs, templatesDir);
    }
    r := Success(names);
  }

  // ---------------------------------------------------------------------------
  // initializeLanguage
  // ---------------------------------------------------------------------------

  /** A per-problem template, which initialisation does not copy. */
  predicate IsProblemTemplate(name: string) {
    Contains(name, "_template.")
  }

  /** The name a copied file gets: `gitignore` is stored without its dot in the store. */
  function TargetName(name: string): string {
    if name == "gitignore" then ".gitignore" else name
  }

  /** Renaming never turns a configuration file into a template or back. */
  lemma TargetNameKeepsKind(name: string)
    ensures IsProblemTemplate(TargetName(name)) <==> IsProblemTemplate(name)
  {
    if name == "gitignore" {
      assert !StartsWith("gitignore", "_template.");
      assert "gitignore"[1..] == "itignore";
      ContainsIffOccurs("gitignore", "_template.");
      ContainsIffOccurs(".gitignore", "_template.");
      assert ".gitignore"[0..10] == ".gitignore";
      assert ".gitignore"[0] != "_template."[0];
      assert !OccursAt(".gitignore", "_template.", 0);
    }
  }

  function Names(entries: seq<DirEntry>): (r: seq<string>)
    ensures |r| == |entries| && forall i :: 0 <= i < |r| ==> r[i] == entries[i].name
  {
    seq(|entries|, i requires 0 <= i < |entries| => entries[i].name)
  }

  /**
   * The files after copying, in order, each listed name that is not a template from `src`
   * into `dst` under its target name; the copy reads the source as it is at that moment.
   */
  function CopyEach(files: map<Path, string>, src: Path, dst: Path, names: seq<string>): map<Path, string>
    decreases |names|
  {
    if |names| == 0 then files
    else
      var n := names[|names| - 1];
      var f := CopyEach(files, src, dst, names[..|names| - 1]);
      if IsProblemTemplate(n) || src + [n] !in f then f
      else f[dst + [TargetName(n)] := f[src + [n]]]
  }

  /** Every entry to copy is a regular file, and no directory sits where a copy goes. */
  ghost predicate CopiesSucceed(files: map<Path, string>, dirs: set<Path>, templateDir: Path, targetDir: Path) {
    forall n :: n in ChildNames(files, dirs, templateDir) && !IsProblemTemplate(n) ==>
      templateDir + [n] in files && targetDir + [TargetName(n)] !in dirs
  }

  /** Every name copied so far was a regular file with no directory in the way of its copy. */
  ghost predicate CopiedSoFar(files: map<Path, string>, dirs: set<Path>, templateDir: Path, targetDir: Path, names: seq<string>) {
    forall k :: 0 <= k < |names| && !IsProblemTemplate(names[k]) ==>
      templateDir + [names[k]] in files && targetDir + [TargetName(names[k])] !in dirs
  }

  lemma CopiedSoFarStep(files: map<Path, string>, dirs: set<Path>, templateDir: Path, targetDir: Path, names: seq<string>, i: nat)
    requires i < |names| && CopiedSoFar(files, dirs, templateDir, targetDir, names[..i])
    requires !IsProblemTemplate(names[i]) ==>
      templateDir + [names[i]] in files && targetDir + [TargetName(names[i])] !in dirs
    ensures CopiedSoFar(files, dirs, templateDir, targetDir, names[..i + 1])
  {
  }

  lemma CopyEachStep(files: map<Path, string>, src: Path, dst: Path, names: seq<string>, i: nat)
    requires i < |names|
    ensures var f := CopyEach(files, src, dst, names[..i]);
      var n := names[i];
      CopyEach(files, src, dst, names[..i + 1])
        == if IsProblemTemplate(n) || src + [n] !in f then f else f[dst + [TargetName(n)] := f[src + [n]]]
  {
    assert names[..i + 1][..i] == names[..i];
  }

  /**
   * Every step succeeds: the language's template directory is a directory, no file blocks
   * the target directory, and then every copy succeeds.
   */
  ghost predicate InitSucceeds(files: map<Path, string>, dirs: set<Path>, templateDir: Path, targetDir: Path) {
    && templateDir in dirs
    && files.Keys !! Prefixes(targetDir)
    && CopiesSucceed(files, dirs + Prefixes(targetDir), templateDir, targetDir)
  }

  /**
   * initializeLanguage: creates `<cwd>/<language>` and copies the language's configuration
   * files into it, in listing order.
   */
  method InitializeLanguage(h: Host, templatesDir: Path, language: string) returns (st: Status)
    requires h.Valid()
    modifies h
    ensures h.Valid() && h.cwd == old(h.cwd)
    ensures var templateDir := templatesDir + [language];
      !Exists(old(h.files), old(h.dirs), templateDir) ==>
        st == Error("Template for language '" + language + "' not found")
        && h.files == old(h.files) && h.dirs == old(h.dirs)
    ensures var templateDir := templatesDir + [language];
      var targetDir := old(h.cwd) + [language];
      && (st.Done? <==> InitSucceeds(old(h.files), old(h.dirs), templateDir, targetDir))
      && (st.Done? ==> (h.dirs == old(h.dirs) + Prefixes(targetDir)
                        && exists entries :: IsListing(entries, old(h.files), h.dirs, templateDir)
                                             && h.files == CopyEach(old(h.files), templateDir, targetDir, Names(entries))))
      && (st.Error? ==> (h.dirs == old(h.dirs) || h.dirs == old(h.dirs) + Prefixes(targetDir)))
      && (st.Error? ==> (h.files == old(h.files)
            || exists entries, k :: 0 <= k <= |entries| && IsListing(entries, old(h.files), h.dirs, templateDir)
                                    && h.files == CopyEach(old(h.files), templateDir, targetDir, Names(entries)[..k])))
  {
    var templateDir := templatesDir + [language];
    var targetDir := h.cwd + [language];
    if !Exists(h.files, h.dirs, templateDir) {
      return Error("Template for language '" + language + "' not found");
    }
    st := h.MakeDirs(targetDir);
    if st.Error? {
      return;
    }
    var listing := h.ReadDir(templateDir);
    if listing.Failure? {
      return Error(listing.error);
    }
    assert templateDir in old(h.dirs);
    assert targetDir in Prefixes(targetDir) by { assert targetDir[..|targetDir|] == targetDir; }
    st := CopyConfigFiles(h, templateDir, targetDir, listing.value);
  }

  /** The copy loop of initializeLanguage over one listing of the language's template directory. */
  method CopyConfigFiles(h: Host, templateDir: Path, targetDir: Path, entries: seq<DirEntry>) returns (st: Status)
    requires h.Valid() && targetDir in h.dirs && IsListing(entries, h.files, h.dirs, templateDir)
    modifies h
    ensures h.Valid() && h.dirs == old(h.dirs) && h.cwd == old(h.cwd)
    ensures st.Done? <==> CopiesSucceed(old(h.files), old(h.dirs), templateDir, targetDir)
    ensures st.Done? ==> h.files == CopyEach(old(h.files), templateDir, targetDir, Names(entries))
    ensures st.Error? ==> exists k :: 0 <= k <= |entries|
                                      && h.files == CopyEach(old(h.files), templateDir, targetDir, Names(entries)[..k])
  {
    ghost var files0, dirs := h.files, h.dirs;
    var names := Names(entries);
    var i := 0;
    while i < |names|
      invariant 0 <= i <= |names|
      invariant h.Valid() && h.dirs == dirs && h.cwd == old(h.cwd)
      invariant h.files == CopyEach(files0, templateDir, targetDir, names[..i])
      invariant files0.Keys <= h.files.Keys
      invariant CopiedSoFar(files0, dirs, templateDir, targetDir, names[..i])
    {
      ghost var before := h.files;
      st := CopyEntry(h, templateDir, targetDir, names[i]);
      EntryCopied(files0, dirs, templateDir, targetDir, entries, i, before, h.files, st.Done?);
      if st.Error? {
        return;
      }
      i := i + 1;
    }
    assert names[..|names|] == names;
    AllCopied(entries, files0, dirs, templateDir, targetDir);
    st := Done;
  }

  /** What one iteration of the copy loop leaves, from the state before it. */
  lemma EntryCopied(files0: map<Path, string>, dirs: set<Path>, templateDir: Path, targetDir: Path,
                    entries: seq<DirEntry>, i: nat, before: map<Path, string>, after: map<Path, string>, done: bool)
    requires IsListing(entries, files0, dirs, templateDir) && i < |entries|
    requires before == CopyEach(files0, templateDir, targetDir, Names(entries)[..i])
    requires files0.Keys <= before.Keys && before.Keys !! dirs
    requires CopiedSoFar(files0, dirs, templateDir, targetDir, Names(entries)[..i])
    requires var n := Names(entries)[i];
      done <==> IsProblemTemplate(n) || (templateDir + [n] in before && targetDir + [TargetName(n)] !in dirs)
    requires var n := Names(entries)[i];
      after == if done && !IsProblemTemplate(n) then before[targetDir + [TargetName(n)] := before[templateDir + [n]]] else before
    ensures done ==> && after == CopyEach(files0, templateDir, targetDir, Names(entries)[..i + 1])
                     && files0.Keys <= after.Keys
                     && CopiedSoFar(files0, dirs, templateDir, targetDir, Names(entries)[..i + 1])
    ensures !done ==> !CopiesSucceed(files0, dirs, templateDir, targetDir)
  {
    var names := Names(entries);
    var n := names[i];
    CopyEachStep(files0, templateDir, targetDir, names, i);
    ListedName(entries, files0, dirs, templateDir, i);
    SourceIsListedFile(files0, before, dirs, templateDir, n);
    if done {
      CopiedSoFarStep(files0, dirs, templateDir, targetDir, names, i);
    } else {
      CopyFailed(files0, dirs, templateDir, targetDir, n);
    }
  }

  lemma ListedName(entries: seq<DirEntry>, files: map<Path, string>, dirs: set<Path>, p: Path, i: nat)
    requires IsListing(entries, files, dirs, p) && i < |entries|
    ensures entries[i].name in ChildNames(files, dirs, p)
  {
    assert entries[i] in entries;
  }

  /** One listed configuration file that cannot be copied makes the whole copy fail. */
  lemma CopyFailed(files: map<Path, string>, dirs: set<Path>, templateDir: Path, targetDir: Path, n: string)
    requires n in ChildNames(files, dirs, templateDir) && !IsProblemTemplate(n)
    requires !(templateDir + [n] in files && targetDir + [TargetName(n)] !in dirs)
    ensures !CopiesSucceed(files, dirs, templateDir, targetDir)
  {
  }

  /** Having copied every listed name, every child of the template directory was copied. */
  lemma AllCopied(entries: seq<DirEntry>, files: map<Path, string>, dirs: set<Path>, templateDir: Path, targetDir: Path)
    requires IsListing(entries, files, dirs, templateDir)
    requires CopiedSoFar(files, dirs, templateDir, targetDir, Names(entries))
    ensures CopiesSucceed(files, dirs, templateDir, targetDir)
  {
    var names := Names(entries);
    forall n | n in ChildNames(files, dirs, templateDir) && !IsProblemTemplate(n)
      ensures templateDir + [n] in files && targetDir + [TargetName(n)] !in dirs
    {
      var e :| e in entries && e.name == n;
      var k :| 0 <= k < |entries| && entries[k] == e;
      assert names[k] == n;
    }
  }

  /** A listed entry is a regular file now exactly when it was one before the copies began. */
  lemma SourceIsListedFile(files0: map<Path, string>, files: map<Path, string>, dirs: set<Path>, templateDir: Path, n: string)
    requires n in ChildNames(files0, dirs, templateDir)
    requires files0.Keys <= files.Keys && files.Keys !! dirs
    ensures templateDir + [n] in files <==> templateDir + [n] in files0
  {
    ChildNamesMembership(files0, dirs, templateDir, n);
  }

  /** One iteration: a template is skipped, anything else copied under its target name. */
  method CopyEntry(h: Host, templateDir: Path, targetDir: Path, n: string) returns (st: Status)
    requires h.Valid() && targetDir in h.dirs
    modifies h
    ensures h.Valid() && h.dirs == old(h.dirs) && h.cwd == old(h.cwd)
    ensures st.Done? <==> IsProblemTemplate(n)
                          || (templateDir + [n] in old(h.files) && targetDir + [TargetName(n)] !in h.dirs)
    ensures h.files == if st.Done? && !IsProblemTemplate(n)
                       then old(h.files)[targetDir + [TargetName(n)] := old(h.files)[templateDir + [n]]]
                       else old(h.files)
  {
    if IsProblemTemplate(n) {
      return Done;
    }
    var target := targetDir + [TargetName(n)];
    assert Dirname(target) == targetDir;
    st := h.CopyFile(templateDir + [n], target);
  }
}
